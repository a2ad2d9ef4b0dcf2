/**
 * The simulator's shared state (the globals of simula.c, typed by
 * competition/lib/simula_internal.h): the map, the robot, the statistics,
 * the history of sensor samples, the tick counter and the configuration,
 * together with the history tick every action ends with.
 *
 * The tick follows the 2024 kernel (simulacomp_24.c:226-237): the current
 * sample is stored at hist[timer], timer advances unless the action is the
 * bump sentinel -1, and the run ends when the battery is below 0.1 or the
 * budget is used up. Where that kernel calls exit(0) the model sets the
 * `stopped` flag; nothing the process would not run afterwards is run.
 */
module SimContext {
  import opened Types
  import opened SimWorld
  import opened SimStats

  /**
   * A call of a user callback, as the primitive action it performs:
   * Idle for a call that only queries sensors.
   */
  datatype Action = Idle | Awake | Turn(alpha: real) | Forward | Clean | Load

  /** The handlers configure registers with atexit. */
  datatype Handler = StopHandler | SaveLog | SaveStats

  /**
   * The step of one move for a heading: (rounda(cos h), rounda(sin h)).
   * Only its range matters to the kernel.
   */
  ghost predicate UnitStep(step: real -> (real, real)) {
    forall h: real :: -1.0 <= step(h).0 <= 1.0 && -1.0 <= step(h).1 <= 1.0
  }

  /** A unit step moves at most one cell along each axis, whatever the heading. */
  lemma UnitStepAt(step: real -> (real, real), h: real)
    ensures UnitStep(step) ==> -1.0 <= step(h).0 <= 1.0 && -1.0 <= step(h).1 <= 1.0
  {
  }

  /** Whether a tick of the action advances the timer: not on a low battery, and not for the bump sentinel. */
  predicate Advances(battery: real, action: int) {
    LOW_BATTERY <= battery && action != BUMP_ACTION
  }

  /** robot_t r with its sensor_t: the cell position, the sensors and the continuous position. */
  class Robot {
    var x: int
    var y: int
    var heading: real
    var bumper: int
    var infrared: int
    var battery: real
    /** r.precise_x, r.precise_y: the position before truncation to a cell. */
    var px: real
    var py: real

    /** The zero-initialised global. */
    constructor ()
      ensures x == 0 && y == 0 && heading == 0.0 && bumper == 0 && infrared == 0 && battery == 0.0
      ensures px == 0.0 && py == 0.0
    {
      x, y, heading, bumper, infrared, battery := 0, 0, 0.0, 0, 0, 0.0;
      px, py := 0.0, 0.0;
    }

    /** save_state / rmb_state: the current sensor readings. */
    function State(): (s: Sample)
      reads this
      ensures s.x == x && s.y == y && s.battery == battery
    {
      Sample(x, y, heading, bumper, infrared, battery)
    }

    /** The cell position is the truncation of the continuous position. */
    predicate Tracked()
      reads this
    {
      x == Trunc(px) && y == Trunc(py)
    }
  }

  /** config_t: the callbacks, the execution budget and the exit handlers. */
  class Config {
    var onStart: Option<Action>
    /** The actions the behaviour performs on its successive calls. */
    var behaviour: seq<Action>
    var onStop: Option<Action>
    var execTime: int
    /** The atexit registrations, in registration order. */
    var handlers: seq<Handler>

    constructor ()
      ensures onStart == None && behaviour == [] && onStop == None && execTime == 0 && handlers == []
    {
      onStart, behaviour, onStop, execTime, handlers := None, [], None, 0, [];
    }
  }

  /** The globals map, r, hist, config, timer and stats, and the stop request. */
  class Sim {
    const world: Map
    const robot: Robot
    const stats: Stats
    const config: Config
    const hist: array<Sample>
    /** The trigonometric step of rmb_forward. */
    const stepOf: real -> (real, real)
    var timer: int
    /** Set where tick would end the process. */
    var stopped: bool

    ghost predicate Valid()
      reads this, world, robot, stats, stats.visited, config
    {
      world.Valid() && stats.Valid() && hist.Length == WORLDAREA && UnitStep(stepOf) &&
      InGrid(robot.y, robot.x) && robot.Tracked() && robot.battery <= MAXBAT &&
      0 <= timer <= config.execTime <= WORLDAREA
    }

    /** Whether an action that ends with a tick may run: not stopped, and the budget not used up. */
    predicate Live()
      reads this, config
    {
      !stopped && timer < config.execTime
    }

    constructor (step: real -> (real, real))
      requires UnitStep(step)
      ensures Valid() && !stopped && timer == 0 && stepOf == step
      ensures fresh(world) && fresh(world.cells) && fresh(robot) && fresh(stats) && fresh(stats.moves)
      ensures fresh(stats.visited) && fresh(config) && fresh(hist)
    {
      world := new Map();
      robot := new Robot();
      stats := new Stats();
      config := new Config();
      hist := new Sample[WORLDAREA](i => Sample(0, 0, 0.0, 0, 0, 0.0));
      stepOf := step;
      timer, stopped := 0, false;
    }

    /**
     * tick(action): the current sample goes to hist[timer]; a battery below
     * LOW_BATTERY stops the run before the timer moves; otherwise every
     * action but the bump advances the timer, and reaching the budget stops
     * the run.
     */
    method Tick(action: int)
      requires Valid() && Live()
      modifies this, hist
      ensures Valid()
      ensures hist[old(timer)] == robot.State()
      ensures forall k :: 0 <= k < hist.Length && k != old(timer) ==> hist[k] == old(hist[k])
      ensures timer == old(timer) + (if Advances(robot.battery, action) then 1 else 0)
      ensures stopped <==> robot.battery < LOW_BATTERY || (action != BUMP_ACTION && old(timer) + 1 >= config.execTime)
      ensures !stopped ==> timer < config.execTime
    {
      hist[timer] := robot.State();
      if robot.battery < LOW_BATTERY {
        stopped := true;
      } else if action != BUMP_ACTION {
        timer := timer + 1;
        if timer >= config.execTime {
          stopped := true;
        }
      }
    }
  }
}
