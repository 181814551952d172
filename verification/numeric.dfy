/** Shared vocabulary of the root-finding engine: optional values for
    evaluations that may fail, results for calls that may be rejected, the
    absolute value and the two numeric thresholds the iterators compare with.

    All arithmetic is over Dafny's exact `real`; the floating-point types of
    the program are idealised away. */
module Numeric {

  /** An optional value: `None` where there is none. */
  datatype Option<+T> = None | Some(value: T)

  /** A value, or the reason the call was rejected. */
  datatype Result<+T, +E> = Ok(value: T) | Err(error: E)

  function Abs(x: real): (r: real)
    ensures r >= 0.0
    ensures r == x || r == -x
  {
    if x < 0.0 then -x else x
  }

  /** Machine epsilon of IEEE-754 double precision, 2^-52, which the
      regula-falsi iterator uses both as its "denominator is degenerate"
      threshold and as its "f(xr) is zero" threshold. */
  const MachineEpsilon: real := 1.0 / 4503599627370496.0

  /** The threshold below which the Aitken denominator counts as zero. */
  const AitkenThreshold: real := 0.000000000001

  /** How many passes of a loop `for i in range(1, maxIter + 1)` remain
      when the next pass is number `i`. */
  function StepsLeft(maxIter: int, i: int): (n: nat)
    ensures i <= maxIter ==> n == maxIter - i + 1
    ensures i > maxIter ==> n == 0
  {
    if i <= maxIter then maxIter - i + 1 else 0
  }

  function Min(x: real, y: real): (r: real)
    ensures r <= x && r <= y
    ensures r == x || r == y
  {
    if x <= y then x else y
  }

  function Max(x: real, y: real): (r: real)
    ensures r >= x && r >= y
    ensures r == x || r == y
  {
    if x <= y then y else x
  }
}
