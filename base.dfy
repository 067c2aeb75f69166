/**
 * Value semantics of C and C++ that the raster engine depends on, stated once:
 * an optional value (a pointer that may be NULL), the `(int)` cast of a double,
 * rounding and ceiling of a real, and the float32 limit the engine uses as a
 * nodata sentinel.
 *
 * Doubles are modelled as exact `real`s and C `int`s as unbounded `int`s.
 */
module Base {

  /** A value that may be missing (a NULL pointer, a "not found" result). */
  datatype Option<+T> = None | Some(value: T)

  /** Either a value or the error that replaced it. */
  datatype Result<+T, +E> = Ok(value: T) | Err(error: E)

  function Abs(x: real): (r: real)
    ensures r >= 0.0
    ensures r == x || r == -x
  {
    if x < 0.0 then -x else x
  }

  /**
   * The C cast `(int) x` of a double: the integer part, truncated toward
   * zero (Dafny's `.Floor` rounds toward minus infinity, so negative values
   * are handled by symmetry).
   */
  function Trunc(x: real): (t: int)
    ensures x >= 0.0 ==> 0 <= t && t as real <= x < t as real + 1.0
    ensures x < 0.0 ==> t <= 0 && t as real - 1.0 < x <= t as real
  {
    if x >= 0.0 then x.Floor else -((-x).Floor)
  }

  /** Rounding to the nearest integer, halves upward. */
  function Round(x: real): (n: int)
    ensures x - 0.5 < n as real <= x + 0.5
  {
    (x + 0.5).Floor
  }

  /** The least integer not below `x`. */
  function Ceil(x: real): (n: int)
    ensures x <= n as real < x + 1.0
  {
    -((-x).Floor)
  }

  /** `std::numeric_limits<float>::max()`, i.e. (2 - 2^-23) * 2^127, exactly. */
  const FltMax: real := 340282346638528859811704183484516925440.0

  /** `std::numeric_limits<float>::lowest()`, the most negative finite float32. */
  const FltLowest: real := -FltMax

  /** `std::numeric_limits<double>::max()`, i.e. (2 - 2^-52) * 2^1023, exactly. */
  const DblMax: real := 179769313486231570814527423731704356798070567525844996598917476803157260780028538760589558632766878171540458953514382464234321326889464182768467546703537516986049910576551282076245490090389328944075868508455133942304583236903222948165808559332123348274797826204144723168738177180919299881250404026184124858368.0

  /** The most negative finite double. */
  const DblLowest: real := -DblMax
}
