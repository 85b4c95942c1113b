/**
 * The ratio value type. Its two-argument constructor refuses a zero
 * denominator; a value made that way keeps exactly the given components.
 */
module Ratio {
  import opened Wrappers
  import opened Numerics

  /** A numerator over a denominator, both C# `int`s (a value type). */
  datatype DecimalNumber = DecimalNumber(Numerator: int32, Denominator: int32)

  /** The argument exception the constructor throws. */
  datatype ArgumentError = DenominatorIsZero

  /** The checked constructor `DecimalNumber(numerator, denominator)`. */
  function NewDecimalNumber(numerator: int32, denominator: int32): (r: Result<DecimalNumber, ArgumentError>)
    ensures r.Failure? <==> denominator == 0
    ensures r.Failure? ==> r.error == DenominatorIsZero
    ensures r.Success? ==> r.value.Numerator == numerator && r.value.Denominator == denominator
  {
    if denominator == 0 then Failure(DenominatorIsZero)
    else Success(DecimalNumber(numerator, denominator))
  }
}
