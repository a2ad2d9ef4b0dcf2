/**
 * Shared constants, value types and the C arithmetic the simulator relies on.
 *
 * The constants are those of the simulator's internal header
 * (competition/lib/simula_internal.h) and of the public header simula.h.
 */
module Types {

  // ---------------------------------------------------------------------------
  // World constants
  // ---------------------------------------------------------------------------

  /** Maximum number of rows and columns of a map. */
  const WORLDSIZE: int := 50
  /** Number of cells of the largest map, also the default execution budget. */
  const WORLDAREA: int := WORLDSIZE * WORLDSIZE
  /** Deepest dirt a cell can hold. */
  const MAXDIRT: int := 5
  /** Largest value rand() returns (glibc). */
  const RAND_MAX: int := 2147483647

  const WALL: char := '#'
  const EMPTY: char := ' '
  const BASE: char := 'B'
  const DIGIT_BASE: char := '0'

  // ---------------------------------------------------------------------------
  // Battery
  // ---------------------------------------------------------------------------

  const MAXBAT: real := 1000.0
  const COST_TURN: real := 0.1
  const COST_MOVE: real := 1.0
  const COST_MOVE_DIAG: real := 1.4
  const COST_BUMP: real := 0.5
  const COST_CLEAN: real := 0.5
  /** One load cycle at the base restores this much battery. */
  const LOAD_STEP: real := 10.0
  /** Below this battery level a tick ends the run. */
  const LOW_BATTERY: real := 0.1
  /** A step counts as diagonal when |dx*dy| reaches this. */
  const DIAG_EPS: real := 0.0001

  // ---------------------------------------------------------------------------
  // Action kinds (enum movement); -1 is the bump sentinel passed to tick
  // ---------------------------------------------------------------------------

  const FWD: int := 0
  const TURN: int := 1
  const BUMP: int := 2
  const CLEAN: int := 3
  const LOAD: int := 4
  const NMOVES: int := 5
  const BUMP_ACTION: int := -1

  /** The model's value of M_PI: a fixed positive real. */
  const PI: real := 3.141592653589793
  const TWO_PI: real := 2.0 * PI

  // ---------------------------------------------------------------------------
  // Value types
  // ---------------------------------------------------------------------------

  datatype Option<T> = None | Some(value: T)

  /** The abstract content of a grid cell. */
  datatype Cell = Wall | Empty | Base | Dirt(d: int)

  /** One entry of the map's list of dirty cells (dirt_t): column x, row y. */
  datatype DirtRecord = DirtRecord(x: int, y: int, depth: int)

  /** sensor_t: the robot's externally visible state, also one history sample. */
  datatype Sample = Sample(x: int, y: int, heading: real, bumper: int, infrared: int, battery: real)

  /** The row and column index a WORLDSIZE x WORLDSIZE array accepts. */
  predicate InGrid(y: int, x: int) {
    0 <= y < WORLDSIZE && 0 <= x < WORLDSIZE
  }

  // ---------------------------------------------------------------------------
  // Cell characters
  // ---------------------------------------------------------------------------

  predicate IsDigit(c: char) {
    '0' <= c <= '9'
  }

  /**
   * The character '0' + d stored into a C char: the byte wraps modulo 256.
   * Grid bytes are modelled as the characters 0..255.
   */
  function ByteChar(v: int): (c: char)
    ensures c as int < 256
    ensures 0 <= v < 256 ==> c as int == v
  {
    (v % 256) as char
  }

  /**
   * The value a grid byte has as a C `char` (signed): bytes 128..255 read
   * as -128..-1.
   */
  function CharValue(c: char): (v: int)
    ensures -128 <= v < 128
    ensures c as int < 128 ==> v == c as int
  {
    (c as int + 128) % 256 - 128
  }

  /** The digit character of a depth 0..9. */
  function DigitChar(d: int): (c: char)
    requires 0 <= d <= 9
    ensures IsDigit(c) && c as int - '0' as int == d
  {
    ByteChar('0' as int + d)
  }

  /** How the map's queries read a grid character: anything but a sentinel is dirt. */
  function CellOf(c: char): (cell: Cell)
    ensures cell.Dirt? <==> c != WALL && c != EMPTY && c != BASE
    ensures cell.Dirt? ==> cell.d == CharValue(c) - '0' as int
    ensures IsDigit(c) ==> cell == Dirt(c as int - '0' as int)
  {
    if c == WALL then Wall
    else if c == EMPTY then Empty
    else if c == BASE then Base
    else Dirt(CharValue(c) - '0' as int)
  }

  /** The grid character of a cell whose depth has one digit. */
  function CellChar(cell: Cell): char
    requires cell.Dirt? ==> 0 <= cell.d <= 9
  {
    match cell
    case Wall => WALL
    case Empty => EMPTY
    case Base => BASE
    case Dirt(d) => DigitChar(d)
  }

  /** The characters a well-formed map holds: wall, empty, base or depth 1..MAXDIRT. */
  predicate IsMapChar(c: char) {
    c == WALL || c == EMPTY || c == BASE || ('1' <= c <= '5')
  }

  lemma CellCharOf(c: char)
    requires IsMapChar(c)
    ensures CellOf(c).Dirt? ==> 1 <= CellOf(c).d <= MAXDIRT
    ensures CellChar(CellOf(c)) == c
  {
  }

  // ---------------------------------------------------------------------------
  // C arithmetic
  // ---------------------------------------------------------------------------

  /** Conversion of a floating value to int in C: truncation toward zero. */
  function Trunc(v: real): (r: int)
    ensures 0.0 <= v ==> 0 <= r && r as real <= v < r as real + 1.0
    ensures v < 0.0 ==> r <= 0 && r as real - 1.0 < v <= r as real
  {
    if v >= 0.0 then v.Floor else -((-v).Floor)
  }

  /** A whole number truncates to itself. */
  lemma TruncOfInt(n: int)
    ensures Trunc(n as real) == n
  {
  }

  function Abs(a: int): (r: int)
    ensures 0 <= r && (r == a || r == -a)
  {
    if a < 0 then -a else a
  }

  /** C's integer division, which truncates toward zero. */
  function CDiv(a: int, b: int): (q: int)
    requires b != 0
    ensures 0 <= a && 0 < b ==> q == a / b
  {
    var x, m := if a >= 0 then a else -a, if b > 0 then b else -b;
    if (a >= 0) == (b > 0) then x / m else -(x / m)
  }

  /** C's remainder: it has the sign of the dividend, and a == b * CDiv(a, b) + CMod(a, b). */
  function CMod(a: int, b: int): (r: int)
    requires b != 0
    ensures a == b * CDiv(a, b) + r
    ensures 0 <= a ==> 0 <= r < Abs(b)
    ensures a < 0 ==> -Abs(b) < r <= 0
  {
    var x, m := if a >= 0 then a else -a, if b > 0 then b else -b;
    assert x == m * (x / m) + x % m;
    if a >= 0 then x % m else -(x % m)
  }

  /**
   * fmod(a, 2*PI): a - 2*PI * trunc(a / (2*PI)), which keeps the sign of a.
   * The simulator only ever reduces modulo 2*PI, so the divisor is fixed
   * (which also keeps the arithmetic linear).
   */
  function FModTwoPi(a: real): (r: real)
    ensures 0.0 <= a ==> 0.0 <= r < TWO_PI
    ensures a < 0.0 ==> -TWO_PI < r <= 0.0
  {
    a - TWO_PI * Trunc(a / TWO_PI) as real
  }
}
