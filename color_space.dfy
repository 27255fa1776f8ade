/**
 * The colour-space coordinates the coordinate mapper produces, and the C# `(int)` cast
 * that turns each of their single-precision components into a colour-image column or row.
 */
module ColorSpace {
  import opened SensorTypes

  /** One component of a `ColorSpacePoint`: a finite float, held exactly as a real, or NaN/infinity. */
  datatype Component = Finite(value: real) | NonFinite

  datatype ColorSpacePoint = ColorSpacePoint(x: Component, y: Component)

  /** Truncation toward zero: the integer part of `v`, dropping the fraction whatever the sign. */
  function Truncate(v: real): (n: int)
    ensures 0.0 <= v ==> 0 <= n && n as real <= v < n as real + 1.0
    ensures v < 0.0 ==> n <= 0 && n as real - 1.0 < v <= n as real
  {
    if 0.0 <= v then v.Floor else -((-v).Floor)
  }

  /**
   * The unchecked C# cast `(int)f` of a float component. A finite value whose truncation
   * fits in an `int` gives that truncation; NaN, an infinity or a value out of `int` range
   * gives `int.MinValue`, the value the x86/x64 conversion instruction yields.
   */
  function CastToInt(c: Component): (n: int)
    ensures Int32Min <= n <= Int32Max
    ensures c.Finite? && Int32Min <= Truncate(c.value) <= Int32Max ==> n == Truncate(c.value)
    ensures c.NonFinite? ==> n == Int32Min
  {
    match c
    case NonFinite => Int32Min
    case Finite(v) =>
      var t := Truncate(v);
      if Int32Min <= t <= Int32Max then t else Int32Min
  }

  /** Every value strictly between -1 and 1, a negative fraction included, casts to column or row 0. */
  lemma CastNearZero(v: real)
    requires -1.0 < v < 1.0
    ensures CastToInt(Finite(v)) == 0
  {
  }

  /** A non-finite component never casts to a non-negative index. */
  lemma NonFiniteCastIsNegative(c: Component)
    requires c.NonFinite?
    ensures CastToInt(c) < 0
  {
  }
}
