/**
 * Shared definitions of the NEAT engine: neuron and run types, the numeric
 * helpers (rounding, the larger of two ints, split-depth pairs) and the
 * random-number helpers built on the C library's `rand()`.
 *
 * `rand()` is modelled as an oracle: an `Rng` object holds an arbitrary
 * infinite stream of draws in `0 .. RAND_MAX` and a cursor.  Every call of
 * `rand()` in the engine consumes exactly one draw, in program order, so a
 * whole evolutionary step is a deterministic function of the stream.
 */
module Globals {

  /** The kinds of neuron (enum `neuron_type`). */
  datatype NeuronType = Bias | Input | Hidden | Output | NoType

  /** How the network is updated (enum `run_type`). */
  datatype RunType = Snapshot | Active

  /** The C++ conversion `(int)value`: truncation toward zero. */
  function Trunc(v: real): (r: int)
    ensures 0.0 <= v ==> 0 <= r && r as real <= v < r as real + 1.0
    ensures v < 0.0 ==> r <= 0 && r as real - 1.0 < v <= r as real
  {
    if v >= 0.0 then v.Floor else -((-v).Floor)
  }

  /**
   * `Round`: keeps the truncated value when the remainder is below one half
   * and adds one otherwise.  For a negative value the remainder is never
   * positive, so the result is the truncation toward zero.
   */
  function Round(value: real): (r: int)
    ensures 0.0 <= value && value - value.Floor as real < 0.5 ==> r == value.Floor
    ensures 0.0 <= value && value - value.Floor as real >= 0.5 ==> r == value.Floor + 1
    ensures value < 0.0 ==> r == Trunc(value)
  {
    var integral := Trunc(value);
    var mantissa := value - integral as real;
    if mantissa < 0.5 then integral else integral + 1
  }

  /** For non-negative values `Round` is round-half-up: the nearest integer. */
  lemma RoundNonNegativeIsNearest(value: real)
    requires 0.0 <= value
    ensures Round(value) as real - 0.5 <= value < Round(value) as real + 0.5
  {
  }

  /** For negative values `Round` truncates toward zero instead of rounding. */
  lemma RoundNegativeTruncates()
    ensures Round(-0.7) == 0
    ensures Round(-1.5) == -1
  {
  }

  /** A loop bound: the number of iterations of `for (i = 0; i < x; ++i)`. */
  function Count(x: int): nat
  {
    if x < 0 then 0 else x
  }

  /** The smaller of two integers. */
  function Min(a: int, b: int): int
  {
    if a <= b then a else b
  }

  /** `BiggerInt`: the larger of two values (its last branch is unreachable). */
  function BiggerInt(a: int, b: int): (r: int)
    ensures r >= a && r >= b
    ensures r == a || r == b
  {
    if a < b then b
    else if a > b then a
    else if a == b then a
    else -1
  }

  /** `FSplitDepth`: a split-y value together with the network layer it marks. */
  datatype SplitDepth = SplitDepth(value: real, depth: int)

  /** The default `FSplitDepth`. */
  function DefaultSplitDepth(): (s: SplitDepth)
    ensures s.value == 0.0 && s.depth == -1
  {
    SplitDepth(0.0, -1)
  }

  /** `RAND_MAX` of the C library on the target platform. */
  const RAND_MAX: int := 32767

  /** One value returned by `rand()`. */
  type Draw = r: int | 0 <= r <= RAND_MAX

  /** `rand() / (RAND_MAX + 1)`: a draw scaled into `[0, 1)`. */
  function UnitOf(d: Draw): (u: real)
    ensures 0.0 <= u < 1.0
  {
    d as real / (RAND_MAX + 1) as real
  }

  /** `RandFloat(min, max)` for a given draw: a value in `[min, max)`. */
  function RandFloatOf(d: Draw, min: real, max: real): (v: real)
    ensures min < max ==> min <= v < max
    ensures min == max ==> v == min
    ensures max < min ==> max < v <= min
  {
    var u := UnitOf(d);
    if min < max then ScaleBelow(u, max - min); Scale(u, max - min) + min
    else if max < min then ScaleAbove(u, max - min); Scale(u, max - min) + min
    else Scale(u, max - min) + min
  }

  /** The fraction `u` of `span`. */
  function Scale(u: real, span: real): real
  {
    u * span
  }

  /** A fraction below one of a positive span lies below the span. */
  lemma ScaleBelow(u: real, span: real)
    requires 0.0 <= u < 1.0 && 0.0 < span
    ensures 0.0 <= Scale(u, span) < span
  {
    assert u * span < 1.0 * span;
  }

  /** A fraction below one of a negative span lies above the span. */
  lemma ScaleAbove(u: real, span: real)
    requires 0.0 <= u < 1.0 && span < 0.0
    ensures span < Scale(u, span) <= 0.0
  {
    var m := -span;
    assert u * m < 1.0 * m;
    assert u * m == -(u * span);
  }

  /** The C `%` operator for a non-negative dividend and a non-zero divisor. */
  function CMod(a: nat, b: int): (m: int)
    requires b != 0
    ensures 0 <= m < (if b < 0 then -b else b)
    ensures b > 0 ==> m == a % b
  {
    if b < 0 then a % (-b) else a % b
  }

  /** `RandInt(x, y)` for a given draw: `rand() % (y - x + 1) + x`. */
  function RandIntOf(d: Draw, x: int, y: int): (v: int)
    requires y - x + 1 != 0
    ensures x <= y ==> x <= v <= y
    ensures y + 1 < x ==> x <= v < x + (x - y - 1)
  {
    CMod(d, y - x + 1) + x
  }

  /** `RandomClamped()` for its two draws, the left operand drawn first. */
  function RandomClampedOf(d1: Draw, d2: Draw): (v: real)
    ensures -1.0 < v < 1.0
  {
    UnitOf(d1) - UnitOf(d2)
  }

  /** `RandBool()` for a given draw: true for five of every ten draw values. */
  function RandBoolOf(d: Draw): (b: bool)
    ensures b <==> d % 10 < 5
  {
    RandIntOf(d, 1, 10) <= 5
  }

  /** The stream behind `rand()`: a fixed sequence of draws and a cursor. */
  class Rng {
    const source: nat -> Draw
    var pos: nat

    constructor (source: nat -> Draw)
      ensures this.source == source && pos == 0
    {
      this.source := source;
      pos := 0;
    }

    /** `rand()`. */
    method Rand() returns (d: Draw)
      modifies this`pos
      ensures d == source(old(pos)) && pos == old(pos) + 1
    {
      d := source(pos);
      pos := pos + 1;
    }

    /** `RandFloat(min, max)`. */
    method RandFloat(min: real, max: real) returns (v: real)
      modifies this`pos
      ensures v == RandFloatOf(source(old(pos)), min, max) && pos == old(pos) + 1
    {
      var d := Rand();
      v := RandFloatOf(d, min, max);
    }

    /** `RandFloat()` with its default range `[0, 1)`: the draw scaled into the unit interval. */
    method RandUnit() returns (u: real)
      modifies this`pos
      ensures u == UnitOf(source(old(pos))) && pos == old(pos) + 1
    {
      u := RandFloat(0.0, 1.0);
    }

    /** `RandInt(x, y)`. */
    method RandInt(x: int, y: int) returns (v: int)
      requires y - x + 1 != 0
      modifies this`pos
      ensures v == RandIntOf(source(old(pos)), x, y) && pos == old(pos) + 1
    {
      var d := Rand();
      v := RandIntOf(d, x, y);
    }

    /** `RandomClamped()`. */
    method RandomClamped() returns (v: real)
      modifies this`pos
      ensures v == RandomClampedOf(source(old(pos)), source(old(pos) + 1))
      ensures pos == old(pos) + 2
    {
      var a := RandUnit();
      var b := RandUnit();
      v := a - b;
    }
  }
}
