/** The value type shared by both drafts of the ray tracer's tuple: a homogeneous
    4-tuple (x, y, z, w) whose discriminant w marks a point (w == 1) or a vector (w == 0).
    Coordinates are exact reals; the f32 rounding of the original is not modelled. */
module Homogeneous {

  /** Four coordinates; the struct derives nothing but Debug, so equality is the
      approximate relation each draft defines, not Dafny's structural `==`. */
  datatype Tuple = Tuple(x: real, y: real, z: real, w: real)

  /** The coordinates in declaration order, so that "component by component"
      can be said once with an index. */
  function Components(t: Tuple): (s: seq<real>)
    ensures |s| == 4
    ensures s[0] == t.x && s[1] == t.y && s[2] == t.z && s[3] == t.w
  {
    [t.x, t.y, t.z, t.w]
  }

  /** The range of the comparison tolerance. Its exact value (f32::EPSILON, 2^-23)
      is left abstract; all that is used is that it is positive and below 1. */
  type Tolerance = e: real | 0.0 < e < 1.0 witness 0.5

  /** The tolerance both drafts compare coordinates against. */
  const EPSILON: Tolerance

  /** Absolute value, as f32::abs on a real. */
  function Abs(d: real): (r: real)
    ensures r >= 0.0
    ensures r == d || r == -d
  {
    if d < 0.0 then -d else d
  }

  /** The two invalid operations, one per panic message of the source. */
  datatype Error =
    | CannotAddTwoPoints
    | CannotSubtractPointFromVector

  /** The outcome of an operation that panics in the source. */
  datatype Result<T> = Success(value: T) | Failure(error: Error)
}
