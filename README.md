# Roomba simulator kernel in Dafny

This project models the simulation kernel of the Roomba teaching simulator and
proves properties of it. A robot program calls five primitive actions on one
50 x 50 character grid: awake, turn, forward, clean and load. They differ in
what they charge and whether they record a history sample (a "tick"):

- awake charges nothing: it sets a full battery and ticks;
- turn charges the battery and counts a TURN, with no tick;
- forward ticks, then charges unless that tick stopped the run;
- clean charges on a dirty cell, then ticks;
- load ticks on the base; off the base it only counts a LOAD, with no tick
  and no charge.

The model covers these parts:

- **The world** (`sim_world.dfy`). This is `sim_world.c`:
  - the grid of `'#'` walls, `' '` empty cells, the `'B'` base and the dirt
    digits, with its queries and mutators;
  - base placement and the heading table;
  - procedural generation: border walls, then wall segments or random
    obstacles, then dirt placed by rejection sampling;
  - the plain-PGM saver and loader, with the sentinels 128 for a wall, 255
    for an empty cell, 0 for the base and k for dirt of depth k.
- **The PGM text format** (`pgm.dfy`). It covers what `fprintf("%d")`
  writes and what `fgets`/`fscanf("%d")` read. It includes the round trip
  that decoding an encoded image gives the image back.
- **The statistics** (`sim_stats.dfy`). This is `sim_stats.c`: per-action
  counters, a deduplicated visit count kept over a `visited` matrix,
  crediting of cleaned cells, and rebuilding the totals from a map.
- **The shared state and the tick** (`context.dfy`). These are the robot, the
  configuration, the history array and the timer. `tick` follows
  `simulacomp_24.c`; its `exit(0)` becomes a `stopped` flag.
- **The actions** (`sim_robot.dfy`). This is `sim_robot.c`.
- **The driver** (`simula.dfy`). This is `simula.c`: `configure`, `run` and
  `load_map`.
- **The null-checked map API** (`sim_world_api.dfy`). This is
  `sim_world_api.c`.
- **The competition extension** (`competition_ext.dfy`). This is
  `competition/competition_ext.c`: the (repetition, map) rotation kept in
  `config.txt`, the map choice and its bounds check, the polled behaviour
  loop, the mean battery and the team name.
- **The 2024 competition kernel** (`comp24.dfy`). This is `simulacomp_24.c`,
  a self-contained revision with its own globals. It truncates costs to
  `int`, does not deduplicate visits, and leaves `'0'` in cleaned cells.
- **The standalone map generator** (`generate.dfy`). This is
  `maps/generate.c`. It writes sentinel values straight into an `int` grid
  and saves it as PGM.

Modelling choices:

- Grid bytes are characters 0..255. A C `char` is signed, so bytes
  128..255 read as -128..-1 (`Types.CharValue`).
- C's `/` and `%` truncate toward zero (`Types.CDiv`, `Types.CMod`), and so
  does a cast to `int` (`Types.Trunc`).
- Battery values are reals.
- `rand()` is a sequence of non-negative values that the operations consume.
  An operation whose sequence runs out reports `ok == false`.
- The step `(rounda(cos h), rounda(sin h))` is a function of the heading.
  The model knows only that each component lies in [-1, 1].
- Files are their text. A file that cannot be opened is `None`.
- The callbacks of the robot program are modelled as the primitive actions
  they perform (`SimContext.Action`).

## Model

| member | source | states |
|---|---|---|
| Types.ByteChar | sim_world.c:64 | a byte (below 256), equal to v for 0..255 |
| Types.CharValue | sim_world.c:56-60 | in -128..127; characters below 128 keep their value |
| Types.CellOf | sim_world.c:48-60 | how the queries read a character: `'#'` wall, `' '` empty, `'B'` base, anything else dirt of depth c - '0' |
| Types.Trunc | sim_robot.c:35-36 | float-to-int truncation toward zero: r <= v < r + 1 for v >= 0, r - 1 < v <= r for v < 0 |
| Types.CDiv | sim_world.c:77-79 | C division: equals Dafny division for a >= 0 and b > 0; its behaviour on negative operands shows through CMod |
| Types.CMod | sim_world.c:77-79 | C remainder: a == b*CDiv(a,b) + r, with r in [0, \|b\|) for a >= 0 and in (-\|b\|, 0] for a < 0 |
| Types.FModTwoPi | sim_robot.c:69 | fmod by 2*PI: in [0, 2PI) for a >= 0 and in (-2PI, 0] for a < 0 |
| Pgm.NatToString | sim_world.c:33-41 | printf("%d") of a natural: non-empty |
| Pgm.IntToString | sim_world.c:33-41 | printf("%d") of an integer: non-empty |
| Pgm.NatToStringValue | sim_world.c:33-41 | the digits written read back as the number |
| Pgm.NatToStringDigits | sim_world.c:33-41 | every written character is a digit |
| Pgm.IntToStringHead | sim_world.c:33-41 | a written integer starts with its sign or its first digit, never with white space |
| Pgm.SkipSpace | sim_world.c:167-168 | what fscanf leaves after skipping white space is no longer than its input |
| Pgm.SkipSpaceSuffix | sim_world.c:167-168 | after skipping, the text does not start with white space, and only white space was dropped |
| Pgm.DigitRun | sim_world.c:167-168 | the number of leading digits is at most the text's length |
| Pgm.DigitRunMaximal | sim_world.c:167-168 | the digit run is the longest: the next character is not a digit |
| Pgm.ReadLine | sim_world.c:165-166 | fgets(line, 50) leaves a remainder no longer than its input |
| Pgm.ScanInt | sim_world.c:174 | fscanf("%d"): a successful read consumes at least one character, and the last one it consumes is a digit |
| Pgm.ScanSamples | sim_world.c:173-174 | n fscanf("%d") calls in a row: on success, n values |
| Pgm.ScanIntConsumes | sim_world.c:174 | a read integer consumes at least one character and leaves a suffix that does not start with a digit |
| Pgm.ScanSignedConsumes | sim_world.c:174 | the signed part of %d consumes at least one character and leaves a suffix not starting with a digit |
| Pgm.ScanDigitsConsumes | sim_world.c:174 | the digit part of %d consumes at least one character and leaves a suffix not starting with a digit |
| Pgm.ScanIntString | sim_world.c:174 | %d reads back exactly the integer printf("%d") wrote, after any white space |
| Pgm.ScanRowsShape | sim_world.c:172-189 | the rows the loader reads have the announced height and width |
| Pgm.ScanRowsEncoded | sim_world.c:172-189 | rows of positive width read back from their encoding |
| Pgm.DecodeShaped | sim_world.c:167-189 | a decoded map is at most WORLDSIZE x WORLDSIZE and has its header's shape |
| Pgm.DecodeHeader | sim_world.c:165-168 | after the written header, the loader reads its width, height and maxval, whatever follows |
| Pgm.DecodeOversized | sim_world.c:169 | a header announcing more than WORLDSIZE rows or columns is refused, whatever follows |
| Pgm.DecodeEncode | sim_world.c:157-189 | round trip: every image of at most WORLDSIZE rows and columns decodes from its own encoding |
| Pgm.Encode | sim_world.c:33-44 | the loader's two fgets(line, 50) calls skip exactly the magic and comment lines of the written file, leaving the sizes line and the rows |
| Pgm.Decode | sim_world.c:157-189 | a map is refused as oversized only when its header announces more than WORLDSIZE rows or columns, and a decoded map is at most WORLDSIZE x WORLDSIZE |
| Pgm.HeaderSplit | sim_world.c:33 | the header is a prefix: what follows it is written unchanged |
| Pgm.RowsThenAppendLine | sim_world.c:34-44 | writing one more row and its newline extends the rows' text |
| SimWorld.BaseHeading | sim_world.c:8-14 | one of the four headings of the kernel, in [0, 2PI); Map.PutBase ties it to the base's position |
| SimWorld.DirtOf | sim_world.c:56-60 | 0 on wall, empty and base; the depth CellOf reads on any other character; 0..5 on every map character (wall, empty, base, or depth 1..5) |
| SimWorld.DirtChar | sim_world.c:62-65 | EMPTY for d <= 0; the digit of d for 1..5 |
| SimWorld.DirtCharRoundTrip | sim_world.c:56-65 | a stored depth reads back unchanged for 0..79 except 18, and d <= 0 reads back as 0 |
| SimWorld.DirtCharBaseAlias | sim_world.c:62-65 | depth 18 is stored as 'B', which reads as a base with no dirt |
| SimWorld.CleanChar | sim_world.c:67-74 | a cell without dirt is unchanged; depth 1..80 (not 19) drops by one; depth 1 becomes EMPTY |
| SimWorld.CleanTimesDepth | sim_world.c:67-74 | for d in 1..9: k <= d cleanings leave depth d - k; exactly d of them leave EMPTY |
| SimWorld.SampleOf | sim_world.c:36-41 | the saved sample: 128 wall, 255 empty, 0 base, c - '0' otherwise |
| SimWorld.CharOfSample | sim_world.c:175-186 | the loaded character: '#' for 128, ' ' for 255, 'B' for 0, the digit for 1..5 |
| SimWorld.SampleRoundTrip | sim_world.c:175-186 | loading inverts saving on every map character (wall, empty, base, or depth 1..5) |
| SimWorld.SampleAliases | sim_world.c:179-185 | samples 18 and -13 load as 'B' and '#' without being base or wall samples |
| SimWorld.LoadedRecord | sim_world.c:179-184 | the dirt record for the sample at row i, column j: x is the column, y the row, depth the sample; corrected (the finding on sim_world.c:180-181) |
| SimWorld.LoadedDirtAsWrittenSwapped | sim_world.c:180-182 | as written, the record of the dirt at row 1, column 2 of a 2 x 3 map names row 2 (as written; the finding on sim_world.c:180-181) |
| SimWorld.LoadedRecordAsWritten | sim_world.c:180-182 | the record as written is the intended record of the transposed cell, so it differs from the intended one exactly off the diagonal (as written; the finding on sim_world.c:180-181) |
| SimWorld.LoadedDirtSound | sim_world.c:172-189 | each loaded record sits at its own non-sentinel sample, and records are in strictly increasing row-major order |
| SimWorld.LoadedDirtComplete | sim_world.c:172-189 | every non-sentinel sample of the loaded region is listed by some record |
| SimWorld.LoadedBaseSound | sim_world.c:177 | the loaded base is a 0 sample inside the map, or the old base when there is none |
| SimWorld.DrawSegment | sim_world.c:76-90 | vertical exactly when the first value is odd; line and start at least 2 (the upper bounds are Comp24.WallLineInsideMap) |
| SimWorld.WallSegment | sim_world.c:76-90 | a wall drawn from four stream values lies inside the array, is vertical exactly for an odd first value, and on a map of at least 5 x 5 its row or column lies in 2..n-3 |
| SimWorld.WallCanLeaveGrid | sim_world.c:76-82 | on a full-size map a vertical wall can run past the last row of the array |
| SimWorld.WallDraws | sim_world.c:121-126 | each wall of add_obstacles takes four values of the stream |
| SimWorld.InteriorDraw | sim_world.c:137-138 | rand() % (n - 2) + 1 lies in 1..n-2 |
| SimWorld.AppendPlaced | sim_world.c:140-143 | a record on a free interior cell keeps the records inside the map and pairwise distinct |
| SimWorld.StoredName | sim_world.c:191-192 | snprintf into name[256] keeps the first 255 characters |
| SimWorld.Map.constructor | simula.c:9 | a zero-initialised map: size 0, no dirt, base (0, 0), empty name, every byte 0 |
| SimWorld.Map.IsWall | sim_world.c:48-50 | whether the cell holds '#'; the cell must be on the grid |
| SimWorld.Map.IsBase | sim_world.c:52-54 | whether the cell holds 'B' |
| SimWorld.Map.CellDirt | sim_world.c:56-60 | 0 on wall, empty and base cells; the digit's depth otherwise |
| SimWorld.Map.PutBase | sim_world.c:16-21 | 'B' at (x, y), base_x = x, base_y = y, the heading of BaseHeading; no other cell changes |
| SimWorld.Map.SetBaseOrigin | sim_world.c:23-28 | (1, 1) with heading 0, and only cell (1, 1) becomes 'B'; the recorded base stays |
| SimWorld.Map.SetCellDirt | sim_world.c:62-65 | the cell holds DirtChar(d); no other cell changes |
| SimWorld.Map.CleanCell | sim_world.c:67-74 | the cell becomes CleanChar of its old value; returns d - 1 for a depth d > 0, else the old depth; no other cell changes |
| SimWorld.Map.InitEmptyWorld | sim_world.c:101-107 | the new size, and every cell of the array EMPTY |
| SimWorld.Map.AddBorderWalls | sim_world.c:109-118 | the border of the nrow x ncol map becomes walls; no other cell changes |
| SimWorld.Map.FillSegment | sim_world.c:76-90 | the segment's cells become walls; no other cell changes |
| SimWorld.Map.RandomRow | sim_world.c:94-98 | in row i, column j of 2..47 becomes a wall exactly when its draw is below prop |
| SimWorld.Map.CreateRandomObstacles | sim_world.c:92-99 | each cell of rows and columns 2..47 becomes a wall exactly when its draw is below prop; other cells stay |
| SimWorld.Map.DrawWalls | sim_world.c:121-126 | k walls drawn from the stream: a cell becomes a wall exactly when one of the drawn segments covers it |
| SimWorld.Map.AddObstacles | sim_world.c:120-130 | (int)nobs walls for nobs >= 1, random obstacles for 0 < nobs < 1, nothing otherwise; only walls are written, so a walled border stays walled |
| SimWorld.Map.DrawEmptyInterior | sim_world.c:136-139 | on success an EMPTY interior cell; the values left are a suffix of the stream |
| SimWorld.Map.AddDirt | sim_world.c:140-143 | a record (x = col, y = row, depth) is appended and the cell shows the depth's digit |
| SimWorld.Map.PlaceDirt | sim_world.c:132-145 | ndirt = num and the records are well placed; each record's cell was EMPTY; cells without a record stay; changed cells hold '1'..'5' |
| SimWorld.Map.Generate | sim_world.c:147-155 | -1 and the map untouched when a size exceeds WORLDSIZE; otherwise 0, the new size, a walled border, only map characters, and every cell EMPTY, WALL or a recorded dirt cell when the stream suffices |; when the stream suffices, a cell is a wall exactly when it lies on the border or is an obstacle: on one of the (int)nobs drawn walls for nobs >= 1, a hit of the random area for 0 < nobs < 1, none otherwise |
| SimWorld.Map.RowSamples | sim_world.c:35-42 | row i's saved samples, one per cell, each the sample of its cell |
| SimWorld.Map.RowsSamples | sim_world.c:34-44 | the first n rows of saved samples, each of width ncol |
| SimWorld.Map.SamplesShape | sim_world.c:34-44 | the saved samples have the map's shape, and each is the sample of its cell |
| SimWorld.Map.SavedImage | sim_world.c:33 | the saved image has ncol columns, nrow rows and maxval 255 |
| SimWorld.Map.SaveRow | sim_world.c:35-42 | the line written for row i: each sample followed by a space |
| SimWorld.Map.Save | sim_world.c:30-46 | nothing when map.pgm cannot be opened; otherwise the encoding of the saved image |
| SimWorld.Map.SavedText | sim_world.c:33-44 | the saved text is the header followed by the rows, each ending in a newline |
| SimWorld.Map.SaveDecodable | sim_world.c:30-46 | what the saver writes decodes to the saved image |
| SimWorld.Map.LoadRow | sim_world.c:173-188 | one row: each sample's character, put_base on a 0 sample, a record for every other non-sentinel sample (x the column, y the row); corrected (the finding on sim_world.c:180-181) |
| SimWorld.Map.Load | sim_world.c:157-196 | -1 with nothing changed for a missing file; -1 with only dirt and ndirt reset for a malformed or oversized file; otherwise 0, the size, every loaded cell, the records (x the column, y the row), the base of the last 0 sample and the stored name; records corrected (the finding on sim_world.c:180-181) |
| SimWorld.Map.CopyImage | sim_world.c:170-194 | the decoded image copied in: its size, each cell's character, the records (x the column, y the row), the base and the name; cells outside the map stay; records corrected (the finding on sim_world.c:180-181) |
| SimWorld.Map.LoadImage | sim_world.c:157-196 | the loader on a file that decodes to an image, stated in terms of that image; records corrected (the finding on sim_world.c:180-181) |
| SimWorld.Map.SaveThenLoad | sim_world.c:30-196 | when every cell of the nrow x ncol region is a map character, saving and loading back under the name "map.pgm" keeps the size and every cell of the array (the cells outside the region are not touched), and lists exactly its dirt cells; records corrected (the finding on sim_world.c:180-181) |
| SimWorld.Map.SamplesRoundTrip | sim_world.c:175-186 | when every cell of the nrow x ncol region is a map character, the saved samples have the map's shape and loading each sample gives its cell back |
| SimWorld.Map.LoadedDirtMatches | sim_world.c:172-189 | when every cell of the nrow x ncol region is a map character, loading its samples lists exactly its dirt cells, x the column and y the row; corrected (the finding on sim_world.c:180-181) |
| SimStats.RowBounds | sim_stats.c:88-95 | a row has no more non-wall cells than cells, and at most MAXDIRT dirt per cell |
| SimStats.TotalsBounds | sim_stats.c:88-95 | cell_total <= nrow*ncol and 0 <= dirt_total <= MAXDIRT*cell_total whenever the counted region holds only map characters |
| SimStats.CellTotalBordered | sim_stats.c:88-95 | on a walled border, cell_total counts at most the (nrow-2) x (ncol-2) interior |
| SimStats.NonWallOnlyBorder | sim_stats.c:88-95 | on a map walled only on its border, the first r < nrow rows hold (r-1)*(ncol-2) non-wall cells |
| SimStats.CellTotalOnlyBorder | sim_stats.c:88-95 | on a map walled only on its border, cell_total counts exactly the (nrow-2)*(ncol-2) interior |
| SimStats.Stats.Get | sim_stats.c:112-114 | one counter per action kind, with the totals and battery figures of the struct |
| SimStats.Stats.constructor | sim_stats.c:15-16 | every field zero and every visited entry false |
| SimStats.Stats.Move | sim_stats.c:26-28 | only moves[kind] grows by one |
| SimStats.Stats.Bump | sim_stats.c:47-49 | only moves[BUMP] grows by one |
| SimStats.Stats.VisitCell | sim_stats.c:33-42 | the first visit of an on-grid cell marks it and adds one to cell_visited; anything else changes nothing; cell_visited stays the number of marked cells |
| SimStats.Stats.CleanAction | sim_stats.c:59-63 | moves[CLEAN] grows by one; dirt_cleaned grows exactly when before > 0 and after == 0 |
| SimStats.Stats.BatteryConsume | sim_stats.c:69-71 | bat_total grows by exactly the amount |
| SimStats.Stats.SetMeanBattery | sim_stats.c:104-106 | only bat_mean changes |
| SimStats.Stats.ClearVisited | sim_stats.c:84-87 | every visited entry false and cell_visited 0 |
| SimStats.Stats.CountMap | sim_stats.c:88-95 | the map's non-wall cell count and its summed depths |
| SimStats.Stats.CountRow | sim_stats.c:89-94 | one row's non-wall cell count and summed depths |
| SimStats.Stats.RebuildFromMap | sim_stats.c:80-98 | visits cleared, cell_total the map's non-wall cells, dirt_total its summed depths; the counters and battery figures stay |
| SimStats.Stats.Reset | sim_stats.c:119-124 | every field zero and every visited entry false |
| SimStats.Stats.ClearMoves | sim_stats.c:121 | every action counter zero |
| SimStats.VisitTwice | sim_stats.c:33-42 | a second visit of the same cell changes nothing |
| SimStats.VisitedBound | sim_stats.c:33-42 | cell_visited never exceeds the 2500 cells of the matrix |
| SimContext.Robot.constructor | simula.c:10 | the zero-initialised robot |
| SimContext.Robot.State | sim_robot.c:121-125 | the sample holds the robot's cell and battery |
| SimContext.Config.constructor | simula.c:12 | no callbacks, budget 0, no handlers |
| SimContext.Sim.constructor | simula.c:9-15 | the zero-initialised globals of the simulator |
| SimContext.Sim.Tick | simulacomp_24.c:226-237 | the sample goes to hist[timer]; a battery below 0.1 stops the run with the timer unchanged; otherwise the timer advances unless the action is -1, and reaching the budget stops the run |
| SimRobot.TurnHeading | sim_robot.c:65-69 | the turned heading is within one turn of 0, and not negative unless the sum is below -2*PI |
| SimRobot.FModTwoPiSmall | sim_robot.c:69 | on [0, 4*PI), fmod subtracts one turn exactly when the value reaches 2*PI |
| SimRobot.TurnHeadingRange | sim_robot.c:65-69 | a heading in [0, 2*PI) turned by alpha in [-2*PI, 2*PI) stays in [0, 2*PI) |
| SimRobot.TurnBack | sim_robot.c:65-69 | turning by alpha and then by -alpha restores the heading |
| SimRobot.MoveCost | sim_robot.c:94 | COST_MOVE or COST_MOVE_DIAG: straight when dx or dy is 0, diagonal when dx == dy >= 0.01 |
| SimRobot.Step | sim_robot.c:33-34 | each component of the step lies in [-1, 1] |
| SimRobot.Target | sim_robot.c:32-37 | for a robot at least one cell from the array's low edges, its cell the truncation of its position, the aimed-at cell is its own or one of its eight neighbours, whatever the heading |
| SimRobot.TargetStaysInGrid | sim_robot.c:32-37 | a robot one cell or more inside the array aims at a cell of the array |
| SimRobot.EnclosedTarget | sim_robot.c:32-37 | inside a walled map the aimed-at cell is on the grid, and it is a wall or inside the map |
| SimRobot.ApplyBattery | sim_robot.c:23-26 | the amount leaves the battery and joins bat_total, so their sum is unchanged |
| SimRobot.DoAwake | sim_robot.c:40-63 | on the recorded base when base_x > 0 and base_y > 0, else a new base at (1, 1) facing east; full battery, continuous position equal to the cell, one tick, returns 1, no charge |
| SimRobot.WakeBase | sim_robot.c:44-50 | the recorded base re-marked with its heading, or a new base at (1, 1) |
| SimRobot.WakeAt | sim_robot.c:56-60 | the robot on (x, y) with heading h, a full battery and the continuous position equal to the cell |
| SimRobot.DoTurn | sim_robot.c:65-73 | heading TurnHeading(h, alpha), bumper 0, COST_TURN charged, one more TURN; position, map and history stay |
| SimRobot.Bumped | sim_robot.c:79-84 | bumper 1, one more BUMP, a tick with -1 (the timer stays), then COST_BUMP unless the tick stopped the run; positions stay |
| SimRobot.TickThenCharge | sim_robot.c:92-94 | the sample keeps the battery before the charge; the battery plus bat_total is unchanged |
| SimRobot.Moved | sim_robot.c:86-94 | the continuous position moves by the step, the cell is its truncation, infrared the new cell's dirt, one more FWD, the cell visited, the sample records the pre-cost battery, the timer advances unless the battery was low or the reading is -1, the run stops exactly when the battery was below 0.1 or the budget is used up, then MoveCost charged unless it stopped |
| SimRobot.Relocate | sim_robot.c:86-90 | both positions move and the infrared reads the new cell |
| SimRobot.CountStep | sim_robot.c:91-92 | one more FWD and the visit of the new cell |
| SimRobot.DoForward | sim_robot.c:75-95 | on a wall: bumper 1, one more BUMP, the sample recorded, the timer kept, the run stops exactly when the battery was below 0.1, else COST_BUMP charged; visits and all else kept. Otherwise: the step taken, the cell its truncation, infrared the new cell's dirt, one more FWD and the visit (cell_visited +1 on a first visit), the sample with the new cell and the pre-cost battery, the timer advance, the run stopping exactly when the battery was below 0.1 or the budget is used up, MoveCost charged unless stopped; the other history slots and battery plus bat_total kept |
| SimRobot.DoClean | sim_robot.c:97-107 | on depth d > 0 the cell drops to CleanChar, infrared d - 1, COST_CLEAN charged, one more CLEAN and dirt_cleaned on d == 1, every other robot and statistics field kept; on depth 0 nothing but the tick; the run stops exactly when the battery after the charge is below 0.1 or the budget is used up |
| SimRobot.CleanOnce | sim_robot.c:99-105 | one level less on the cell only, COST_CLEAN, infrared d - 1, one more CLEAN and dirt_cleaned on d == 1, every other robot and statistics field kept |
| SimRobot.DoLoad | sim_robot.c:109-119 | on the base, battery min(battery + 10, MAXBAT) with every other robot field and the statistics kept, a tick, the run stopping exactly when the new battery is below 0.1 or the budget is used up, and 1; elsewhere only one more LOAD, no tick and 0 |
| SimRobot.AtBase | sim_robot.c:139-141 | whether the robot's cell holds 'B' |
| Simula.ClampExecTime | simula.c:44 | the stored budget is in [1, 2500]; it is the request when that is in range |
| Simula.ClampIdempotent | simula.c:44 | clamping a stored budget again keeps it |
| Simula.Registered | simula.c:45-49 | the stop handler only when there is one outside the competition build, then the log writer, then the statistics writer |
| Simula.Reversed | simula.c:45-49 | atexit runs handlers in reverse: same length, element k is element n-1-k |
| Simula.ExitOrder | simula.c:45-49 | at exit the statistics are written first, then the log, and on_stop (when registered) last |
| Simula.Density | simula.c:50 | the density is in [0, 0.05] |
| Simula.FreshMapNotGenerated | simula.c:51 | on a fresh map no map is loaded, yet the written test reports a name (as written; the finding on simula.c:51) |
| Simula.NameIsNull | simula.c:51 | the written test map.name == NULL never holds, whatever name is stored (as written; the finding on simula.c:51) |
| Simula.LoadedMapKept | simula.c:51 | after loading a non-empty file name a map counts as loaded |
| Simula.DefaultMap | simula.c:50-52 | a 50 x 50 map with a walled border and 100 dirt cells is generated exactly when no map is loaded (empty name); otherwise nothing changes; when the stream suffices, its walls are exactly the border and the random obstacles of the density drawn from the first value; corrected (the finding on simula.c:51) |
| Simula.Configure | simula.c:38-53 | the callbacks stored unchanged, the clamped budget, the handlers in order, and the default map when none is loaded, its walls exactly the border and the random obstacles of the drawn density; the map test corrected (the finding on simula.c:51) |
| Simula.Perform | simula.c:55-61 | one callback call: the timer advances by at most one, turns do not tick, battery plus bat_total is kept by turn, forward and clean, and only awake and load raise the battery |
| Simula.Run | simula.c:55-61 | the timer restarts at 0, on_start at most once before the behaviour, the budget is never overrun, and on a walled map no forward leaves the grid |
| Simula.LoadMap | simula.c:65-67 | 0 exactly when the file exists and decodes, and then the name, the size, the records, every cell of the region from its sample with the rest kept, and the base of the last 0 sample; a missing file changes nothing; a malformed one clears the records and keeps the cells, the size, the name and the base; records corrected (the finding on sim_world.c:180-181) |
| SimWorldApi.MapCreate | sim_world_api.c:29-32 | a fresh map: every cell 0, sizes, records, name and base zero |
| SimWorldApi.MapGenerate | sim_world_api.c:53-56 | -1 for a NULL map; otherwise -1 and untouched for an oversized map, else 0, the size, a walled border, only map characters, and num_dirty placed records when the stream suffices |; when the stream suffices, a cell is a wall exactly when it lies on the border or is an obstacle of nobs |
| SimWorldApi.MapSave | sim_world_api.c:65-86 | -1 for a NULL map or name or a file that cannot be created; otherwise 0 and the PGM encoding of the map, which decodes to the saved image |
| SimWorldApi.MapLoad | sim_world_api.c:95-98 | -1 and no effect for a NULL map or name; otherwise 0 exactly when the file exists and decodes, and then the name, the size, the records, every cell of the region from its sample with the rest kept, and the base of the last 0 sample; a missing file changes nothing; a malformed one clears the records and keeps the cells, the size, the name and the base; records corrected (the finding on sim_world.c:180-181) |
| CompetitionExt.NextRound | competition/competition_ext.c:84-91 | rep' = (rep + 1) % 5; the map advances exactly when rep' = 0 |
| CompetitionExt.RoundsFromStart | competition/competition_ext.c:84-91 | from "0 0", run n is repetition n % 5 of map n / 5 |
| CompetitionExt.CompetitionCycle | competition/competition_ext.c:84-91 | every map runs on exactly five consecutive runs, runs 0..19 find a valid map, and run 20 ends the competition |
| CompetitionExt.ConfigRoundTrip | competition/competition_ext.c:84-91 | the config text written reads back as both numbers |
| CompetitionExt.ConfigText | competition/competition_ext.c:91 | update_config writes exactly one line, of at least four characters |
| CompetitionExt.ParseConfig | competition/competition_ext.c:177 | fscanf("%d %d") fails on a text holding no digit; the round trip with the written text is CompetitionExt.ConfigRoundTrip |
| CompetitionExt.UpdateConfig | competition/competition_ext.c:76-93 | when config.txt opens, it holds the next round; otherwise nothing is written |
| CompetitionExt.LastSlash | competition/competition_ext.c:58 | the index of a '/' with none after it; None exactly when there is no '/' |
| CompetitionExt.AfterLastSlash | competition/competition_ext.c:58-61 | the text after the last '/', which contains no '/' |
| CompetitionExt.AfterLastSlashOf | competition/competition_ext.c:58-61 | a path ending in "/name" has name as its last component |
| CompetitionExt.TeamId | competition/competition_ext.c:53-63 | the component after the last '/' of the working directory, or "unknown" when getcwd fails or there is no '/' |
| CompetitionExt.TeamIdOfDirectory | competition/competition_ext.c:53-63 | a team working in dir/team is named team |
| CompetitionExt.MapPath | competition/competition_ext.c:195-201 | shorter than 256 characters; with the default directory see DefaultMapPath |
| CompetitionExt.DefaultMapPath | competition/competition_ext.c:195-201 | with the default directory "../maps" the built-in paths are used unchanged |
| CompetitionExt.ExecuteMap | competition/competition_ext.c:126-153 | the name stored and the map loaded; exit code 1 when loading fails; otherwise the polled loop |
| CompetitionExt.PolledLoop | competition/competition_ext.c:141-152 | on_start at most once before the loop, behaviour only while timer < exec_time, and a stop request ends the loop after the call that raised it |
| CompetitionExt.RunCompetition | competition/competition_ext.c:158-208 | exit 1 on a missing or malformed config.txt; exit 0 with nothing run for a map outside 0..3; otherwise the map runs and config.txt advances |
| CompetitionExt.Averaged | competition/competition_ext.c:221-223 | the samples read: at most timer (0 when timer is not positive), and exactly timer when 0 <= timer <= exec_time |
| CompetitionExt.SumBatteryWithin | competition/competition_ext.c:221-223 | n samples each within [lo, hi] sum to within [n*lo, n*hi] |
| CompetitionExt.MeanWithin | competition/competition_ext.c:221-227 | within the budget the mean lies between the least and the greatest battery recorded |
| CompetitionExt.MeanBattery | competition/competition_ext.c:221-227 | the sum of hist[i].battery below both bounds, divided by the timer, and 0 when the timer is 0 |
| CompetitionExt.SaveStatsCompetition | competition/competition_ext.c:213-256 | the mean stored in the statistics; the team name and the map type from config.txt (0 when unreadable); nothing written when the stats file does not open |
| MapGen.VerticalDraw | maps/generate.c:34-42 | a vertical segment starting at row 2 or later, on a column within ncol/2 - 5 .. ncol/2 + 4 |
| MapGen.HorizDraw | maps/generate.c:45-52 | a horizontal segment starting at column 2 or later, on a row within nrow/2 - 5 .. nrow/2 + 4 |
| MapGen.VerticalWallCanLeaveGrid | maps/generate.c:34-42 | on a full-size grid a vertical wall can run 12 rows past the last row |
| MapGen.VerticalDrawFits | maps/generate.c:34-42 | with at most 40 rows and 10..50 columns, every vertical draw stays inside the array |
| MapGen.CoveredCells | maps/generate.c:40-51 | exactly the on-grid cells the segment covers |
| MapGen.DrawRanges | maps/generate.c:58-98 | the rejection bands (n-4 values from 2, n-2 values from 1) fit the grid and end at n-3 and n-2 |
| MapGen.MainMapsFit | maps/generate.c:107-123 | the four maps main writes meet what gen_map needs, whatever rand() returns; the obstacle count is 0..125, 0 and 125 at the ends |
| MapGen.FillEmpty | maps/generate.c:75-77 | every cell of the array becomes 255 |
| MapGen.BorderWalls | maps/generate.c:79-86 | the border of the nrow x ncol map becomes 128; no other cell changes |
| MapGen.FillLine | maps/generate.c:40-51 | the covered cells become 128; no other cell changes |
| MapGen.Wall | maps/generate.c:34-52 | three draws, then the wall; nothing when the stream runs out first |
| MapGen.DrawEmpty | maps/generate.c:96-99 | on success the drawn cell is 255 and within the band; the values left are a suffix of the stream |
| MapGen.RandomObs | maps/generate.c:55-64 | cells of the band 2..n-3, each 255 before, become 128, nobs distinct ones when the stream suffices; no other cell changes |
| MapGen.PlaceDirt | maps/generate.c:95-102 | interior cells, each 255 before, get depth 1..5, num distinct ones when the stream suffices; no other cell changes |
| MapGen.Obstacles | maps/generate.c:89-93 | nothing for no obstacle; for a vertical or horizontal wall the cells of the draw with swapped size arguments; for random obstacles walls on cells that were 255; no other cell changes |
| MapGen.GenMap | maps/generate.c:67-104 | -1 and nothing written for an oversized map; otherwise 0, every cell 255, 128 or 1..5, the border 128, other walls only on obstacle cells, and the dirt cells exactly the cells in 1..5 (num_dirty of them when the stream suffices) |; the obstacle cells hold 128 and are none without an obstacle kind, the cells the vertical or horizontal draw covers, or ObstacleCount(density) cells for RANDOM |
| MapGen.GridRow | maps/generate.c:23-24 | the first n values of row i, in order |
| MapGen.GridRows | maps/generate.c:22-27 | the first n rows, each cut to cols values |
| MapGen.SavedImage | maps/generate.c:22 | the header names rows where the format expects the width, and maxval 255 |
| MapGen.SaveRow | maps/generate.c:23-24 | row i's values, each followed by a space |
| MapGen.Save | maps/generate.c:20-30 | "P2", the comment line, "rows cols", 255, then each row's values and a newline |
| MapGen.SavedText | maps/generate.c:20-30 | the saved text is the header followed by the rows, each ending in a newline |
| MapGen.SquareRoundTrip | maps/generate.c:20-30 | a square grid, as main writes, reads back as its own rows |
| MapGen.NonSquareMisread | maps/generate.c:22 | with fewer rows than columns the file announces the wrong line length |
| MapGen.GeneratedValuesLoad | maps/generate.c:12-15 | each generated value loads in the simulator as a map character of the same kind |
| Comp24.BaseOnBorderAsWritten | simulacomp_24.c:179-195 | as written, set_base can put the base in the right border column or the bottom border row (as written; the finding on simulacomp_24.c:188, 192) |
| Comp24.SetBaseAsWritten | simulacomp_24.c:184-193 | the drawn base lies inside the array next to one of the four walls, with that wall's heading; cases 0 and 2 agree with Comp24.SetBase (as written; the finding on simulacomp_24.c:188, 192) |
| Comp24.SetBase | simulacomp_24.c:179-195 | the intended base: inside the map and off its border, on row 1, row nrow-2, column 1 or column ncol-2 with heading PI/2, -PI/2, 0 or PI |
| Comp24.CleanOnBaseAsWritten | simulacomp_24.c:577-590 | as written, cleaning on the base reads depth 18 and turns the base into 'A' (as written; the finding on simulacomp_24.c:578-581) |
| Comp24.DepthAsWritten | simulacomp_24.c:578 | on a dirt cell the depth sim_world_cell_dirt reads, and a negative depth on wall and empty cells (as written; the finding on simulacomp_24.c:578-581) |
| Comp24.CleanedAsWritten | simulacomp_24.c:578-581 | a cell whose depth reads as 0 or less is unchanged; otherwise the depth read drops by exactly one (as written; the finding on simulacomp_24.c:578-581) |
| Comp24.Cleaned | simulacomp_24.c:577-590 | the intended clean: a positive depth drops by one down to '0'; wall, empty and base cells stay |
| Comp24.CleanKeepsBase | simulacomp_24.c:577-590 | cleaning keeps the base, walls and empty cells, and keeps cells well formed |
| Comp24.CleanedAgrees | simulacomp_24.c:577-590 | the intended clean agrees with the written one on every cell but the base |
| Comp24.HorizWallBelowMap | simulacomp_24.c:335-343 | as written, a horizontal wall on a 10-row, 50-column map can land on row 47 (as written; the finding on simulacomp_24.c:339) |
| Comp24.DrawSegmentAsWritten | simulacomp_24.c:335-343 | vertical exactly for an odd first value, and the line of either kind of wall drawn over the columns, in 2..ncol-3 (as written; the finding on simulacomp_24.c:339) |
| Comp24.WallLineInsideMap | simulacomp_24.c:324-343 | with the row drawn from nrow, a wall's line lies inside the map |
| Comp24.DrawSegmentAgrees | simulacomp_24.c:324-343 | the two draws agree on every vertical wall and on every wall of a square map |
| Comp24.SumDepths | simulacomp_24.c:404 | the sum of a dirt list's depths |
| Comp24.SumDepthsBounds | simulacomp_24.c:391-405 | records with depths 1..5 sum to between 1 and 5 per record |
| Comp24.CellTotalGenerated | simulacomp_24.c:377 | on a generated map without obstacles, the start value ncol*nrow - (ncol+nrow-4) exceeds the map's non-wall cells by nrow + ncol |
| Comp24.ConfigText24RoundTrip | simulacomp_24.c:300 | the written "rep id" reads back as both numbers |
| Comp24.ConfigText24 | simulacomp_24.c:300 | save_config writes update_config's line without its newline, and no line break at all |
| Comp24.SaveConfig | simulacomp_24.c:291-302 | the two numbers read, the repetition advanced modulo 5, the map on wrap, and the pair written |
| Comp24.SaveConfigAdvances | simulacomp_24.c:291-302 | the file written reads back as the next configuration |
| Comp24.SaveConfigText | simulacomp_24.c:291-302 | on "rep id" the file of the next round is written |
| Comp24.DrawWalls | simulacomp_24.c:379-387 | up to k walls drawn and filled, each cell unchanged or a wall; lens is the sum of their lengths; the wall row corrected (the finding on simulacomp_24.c:339) |
| Comp24.Comp.Snapshot | simulacomp_24.c:216-223 | the sample holds the robot's cell and battery |
| Comp24.Comp.constructor | simulacomp_24.c:50-68 | the zero-initialised globals |
| Comp24.Comp.Configure | simulacomp_24.c:95-112 | the requested budget is ignored: every team gets EXECTIME |
| Comp24.Comp.Tick | simulacomp_24.c:226-237 | the snapshot goes to hist[timer]; a battery below 0.1 exits with the timer unchanged; otherwise every action but -1 advances the timer, and reaching the budget exits |
| Comp24.Comp.AtBase | simulacomp_24.c:211-213 | whether the robot's cell holds 'B' |
| Comp24.Comp.PutBaseAt | simulacomp_24.c:197-202 | 'B' at (x, y), the base recorded, the heading base_heading gives |
| Comp24.Comp.Awake | simulacomp_24.c:517-529 | a base drawn next to a wall and marked; the robot on it with the drawn heading, a full battery and clear sensors, and one tick; the base draw corrected (the finding on simulacomp_24.c:188, 192) |
| Comp24.Comp.StandOnBase | simulacomp_24.c:517-527 | the base marked and the robot on it, charged, with clear sensors |
| Comp24.Comp.Turn | simulacomp_24.c:531-543 | the turned heading, bumper 0, 0.1 spent, no tick |
| Comp24.Comp.ForwardCharge | simulacomp_24.c:548-574 | the int charge: 0 for a bump, 1 otherwise, including a diagonal step |
| Comp24.Comp.Target | simulacomp_24.c:549-552 | for a robot at least one cell from the low edges, its cell the truncation of its position, the aimed-at cell is its own or one of its eight neighbours |
| Comp24.Comp.Bump | simulacomp_24.c:553-558 | bumper 1, a tick with -1 (the timer stays), one more BUMP, nothing charged, positions unchanged |
| Comp24.Comp.Arrival | simulacomp_24.c:565-568 | on the base the reading is kept; on an empty or dirt cell it is the depth sim_world_cell_dirt reads |
| Comp24.Comp.Move | simulacomp_24.c:559-574 | the new positions, the infrared reading, FWD and cell_visited counted (a revisit counts again), the sample with the new cell, the timer advance, the exit exactly when the battery was below 0.1 or the budget is used up, then one unit charged unless exited; the other statistics kept |
| Comp24.Comp.Arrive | simulacomp_24.c:559-570 | the new position, the infrared reading, and FWD and cell_visited counted |
| Comp24.Comp.Forward | simulacomp_24.c:545-575 | a fault that changes nothing exactly when the aimed-at cell is off the array. On a wall: positions, heading, infrared and battery kept, bumper 1, the sample recorded, the timer kept, the exit exactly when the battery was below 0.1, else one more BUMP. Otherwise: the step taken, the infrared reading, the sample with the new cell, the timer advance, the exit exactly when the battery was below 0.1 or the budget is used up, one unit charged unless exited, FWD and cell_visited counted; the other history slots kept |
| Comp24.Comp.Clean | simulacomp_24.c:577-590 | a positive depth drops by one, written as a digit ('0' when clean), 0.5 spent, one more CLEAN, dirt_cleaned at 0, the base untouched; positions, heading and bumper kept; the tick always follows, and the exit comes exactly when the battery after the charge is below 0.1 or the budget is used up; corrected (the finding on simulacomp_24.c:578-581) |
| Comp24.Comp.Load | simulacomp_24.c:593-604 | on the base, +10 capped at MAXBAT with every other sampled field and the continuous position kept, LOAD counted when old + 10 >= MAXBAT (the cap fires), one tick with the exit exactly when the new battery is below 0.1 or the budget is used up, and 1; elsewhere nothing and 0 |
| Comp24.Comp.Walls | simulacomp_24.c:379-387 | k walls; cell_total loses the sum of their lengths; only walls are written |
| Comp24.Comp.TotalDirt | simulacomp_24.c:391-405 | dirt_total is the sum of the placed depths |
| Comp24.Comp.Generate | simulacomp_24.c:357-407 | -1 and nothing changed for an oversized map; otherwise a walled border, cell_total = ncol*nrow - (ncol+nrow-4) minus the wall lengths, and dirt_total the sum of num_dirty well-formed records; without obstacles only the border is walled and cell_total exceeds the map's non-wall cells by nrow + ncol |

## Left out

- Console and file output is not modelled beyond the text it would hold: `DEBUG_PRINT`, `map_display`, and `print_map`, `print_path`, `visualize` and `ascii_progress` of `simulacomp_24.c`. `save_log` and `save_stats` of both kernels are not modelled either; only the atexit order of the handlers is.
- `load_map`, `load_map_from` and `execute` of `simulacomp_24.c` are not part of this model. Its `load_map` reads the sizes as (nrow, ncol) and never consumes the maxval line, so it is no reference decoder.
- The endless `for(;;)` of `run` in both kernels is a finite sequence of behaviour calls, and `exit(0)` in `tick` is a `stopped`/`exited` flag. The 2024 `run` and `update_sensors` are not modelled.
- `rmb_bumper`, `rmb_ifr` and `rmb_battery` are plain field reads without contracts. `rmb_state` is `SimContext.Robot.State` (and `Comp24.Comp.Snapshot`).
- `competition_init` and `competition_get_team_id` only store or forward values. The maps directory is a parameter of `CompetitionExt.RunCompetition`, and the team id is `CompetitionExt.TeamId`.
- `map_destroy` is memory management and is not modelled.
- `sim_log_tick` and `sim_robot_battery_mean` have no definition in the repository. The tick semantics of `simulacomp_24.c` stand in for the first; the second appears only as the mean of `CompetitionExt.MeanBattery`.
- `srand(time(0))`, `rand()`, `sin`, `cos`, `round` and the clock are parameters: the random stream and the step function.
- Floating point is real arithmetic. The `float` rounding of `rand()/(float)RAND_MAX` and of `2500*density` is not modelled.
- SimWorld.Map.Load: a file whose header or samples are not integers is refused with -1. In C, `fscanf` would leave the variables unset and the loop would run on garbage.
- SimWorld.Map.Load: a negative size is read as that many empty rows, as the C loops do, and `base_x`, `base_y` are kept when no 0 sample appears.
- SimWorld.Map.DrawWalls: requires that every drawn wall stays inside the 50 x 50 array (`SegmentsFit`). The C code can write past it (`SimWorld.WallCanLeaveGrid`). The same requirement holds for SimWorld.Map.Generate, SimWorld.Map.AddObstacles, Comp24.DrawWalls, Comp24.Comp.Walls and Comp24.Comp.Generate.
- SimWorld.Map.IsWall: requires the cell to be on the grid, because the C code does no bounds check. SimRobot.DoForward requires the aimed-at cell on the grid for the same reason. Simula.Perform and Comp24.Comp.Forward report such a forward as a fault and change nothing.
- MapGen.GenMap: requires the obstacle draws of the swapped calls to stay on the grid. It holds for the four maps main writes (`MapGen.MainMapsFit`).
- MapGen.Save: does not model `fopen` failing, which the C code does not check.
- SimRobot.DoAwake: models only the `map.name != NULL` branch. `name` is an array, so the other branch (sim_robot.c:51-55), which also saves the map, cannot be reached.
- Comp24.Comp.Walls: states each cell afterwards only as unchanged or a wall, not which segment covers it. SimWorld.Map.DrawWalls states the covering exactly.
- Comp24.Comp.Generate: keeps the `cell_total` start value as written (`Comp24.CellTotalGenerated` measures its distance from the non-wall count). The random obstacles of `0 < nobs < 1` do not change `cell_total`, as in the C code.
- Comp24.Comp.Generate: draws its walls with the corrected row (the finding on simulacomp_24.c:339), so `HorizWallBelowMap` describes the code as written and the model keeps every wall inside the map.
- Comp24.DrawWalls: draws with the corrected row of the finding on simulacomp_24.c:339, requires `SegmentsFit`, and states each cell afterwards only as unchanged or a wall; SimWorld.Map.DrawWalls states the covering exactly.
- SimWorld.Map.LoadRow: its records carry x = column and y = row, the corrected record of the finding on sim_world.c:180-181; the C stores x = row and y = column (`SimWorld.LoadedDirtAsWrittenSwapped`).
- SimWorld.Map.Load: its records are the corrected ones of the finding on sim_world.c:180-181, not the swapped ones the C stores.
- SimWorld.Map.CopyImage: copies in the corrected records of the finding on sim_world.c:180-181, not the swapped ones the C stores.
- SimWorld.Map.LoadImage: states the corrected records of the finding on sim_world.c:180-181, not the C's.
- SimWorld.Map.SaveThenLoad: "lists exactly its dirt cells" holds of the corrected loader; the C loader swaps x and y in every record.
- SimWorldApi.MapLoad: the records it states are SimWorld.Map.Load's corrected ones, not the C's.
- Simula.LoadMap: the records it states are SimWorld.Map.Load's corrected ones, not the C's.
- Simula.DefaultMap: generates when the stored name is empty, the intended test of the finding on simula.c:51. As written the test never holds, so the C never generates the default map (`Simula.FreshMapNotGenerated`).
- Simula.Configure: generates the default map through Simula.DefaultMap, which the C never does. Simula.Run's guarantees for a walled map then hold, before a `load_map`, only of the corrected configure.
- Comp24.Comp.Awake: draws the base with the corrected Comp24.SetBase of the finding on simulacomp_24.c:188, 192. As written, cases 1 and 3 can put the base on the right or bottom border wall (`Comp24.BaseOnBorderAsWritten`).
- Comp24.Comp.Clean: reads the depth with `DirtOf`, the corrected clean of the finding on simulacomp_24.c:578-581. As written, cleaning on the base reads depth 18, writes 'A', charges 0.5, counts a CLEAN and ticks with 17 (`Comp24.CleanOnBaseAsWritten`).
- CompetitionExt.CompetitionCycle: the rotation is stated run by run from "0 0". Runs started from a hand-edited config.txt are covered by `NextRound` only.
- CompetitionExt.ExecuteMap: an `on_start` that stops the run is modelled as the stop flag; the C `exit(0)` inside its tick ends the process.
- Comp24.SaveConfig: a config.txt that does not hold two numbers writes nothing. The C code passes a NULL file to `fscanf` and writes unset values.

## Findings

| source | as written | input that shows it | evidently intended | confidence | as-written member | corrected member |
|---|---|---|---|---|---|---|
| sim_world.c:180-181 | the loader's dirt record stores the row in `x` and the column in `y` | a 2 x 3 map whose only dirt (depth 3) is at row 1, column 2: the record is x = 1, y = 2, and y = 2 is past the last row | x the column and y the row, as `place_dirt` writes them (sim_world.c:140-141) | high, not executed | SimWorld.LoadedDirtAsWrittenSwapped | SimWorld.LoadedRecord, SimWorld.LoadedDirtMatches |
| simula.c:51 | `map.name == NULL` tests the address of a char array, which is never NULL | `configure` before any `load_map`: no map is loaded, yet no default map is generated and the run starts on an all-zero grid | generate the default map when no name is stored (`map.name[0] == '\0'`) | high, not executed | Simula.FreshMapNotGenerated | Simula.DefaultMap, Simula.LoadedMapKept |
| simulacomp_24.c:578-581 | `rmb_clean` reads `patch - '0'` on any cell, so the base 'B' reads depth 18 | `rmb_clean` right after `rmb_awake`, with the robot on its base: the base becomes 'A', 0.5 is spent and a CLEAN is counted | only dirt cells have depth, as `sim_world_cell_dirt` reads them (sim_world.c:56-60) | high, not executed | Comp24.CleanOnBaseAsWritten | Comp24.Cleaned, Comp24.CleanKeepsBase |
| simulacomp_24.c:188, 192 | `set_base` cases 1 and 3 draw `rand() % (n - 2) + 2`, which reaches n - 1 | a 50 x 50 map, second draw 1 and third draw 47: x = 49, the right border wall | `rand() % (n - 4) + 2`, as cases 0 and 2 draw, so the base lies inside the map | medium, not executed | Comp24.BaseOnBorderAsWritten | Comp24.SetBase |
| simulacomp_24.c:339 | `create_horiz_wall` draws the wall's row with `ncol - 4` | a 10-row, 50-column map with draws (0, 0, 0, 45): the wall lies on row 47, below the map | `rand() % (nrow - 4) + 2`, as sim_world.c:87 draws it | high, not executed | Comp24.HorizWallBelowMap | SimWorld.DrawSegment, Comp24.WallLineInsideMap |
