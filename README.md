# Homogeneous tuples of the rusty_rays ray tracer

The repository's only logic is a homogeneous 4-tuple `(x, y, z, w)` for a ray
tracer. The discriminant `w` says what the tuple is: `w == 1` is a point and
`w == 0` is a vector. The algebra refuses adding two points and subtracting a
point from a vector. Every other sum or difference is taken component by
component, and `w` comes out right by plain arithmetic. Negation flips all four
components. Equality is approximate: every coordinate must differ by strictly
less than `EPSILON`.

Two drafts of this type exist and are modelled separately:

- `tuple.dfy` (module `TupleOps`) models `src/tuple.rs`. That draft uses the
  `+`, binary `-` and unary `-` operators and takes its operands by value.
- `maths.dfy` (module `Maths`) models `src/maths.rs`. That draft has named
  `add` and `sub` methods that borrow both operands. It has a `zero()` point and
  no negation.
- `homogeneous.dfy` (module `Homogeneous`) holds what the two share. That is the
  `Tuple` datatype, its `Components` in order, `Abs`, the tolerance `EPSILON`,
  and the `Result` type with the two error kinds.

Modelling choices:

- Coordinates are Dafny `real`s.
- `EPSILON` is a constant whose exact value is left open. It is only known to
  lie strictly between 0 and 1, as `f32::EPSILON` (2^-23) does. The upper bound
  is what makes tuples whose `w` differ by 1 unequal.
- Each `panic!` is a `Failure` result carrying the error named by its message:
  `CannotAddTwoPoints` or `CannotSubtractPointFromVector`. So the contracts can
  say "fails exactly when".
- `Maths.ConstructorsAgree`, `Maths.PredicatesAgree`, `Maths.AddAgrees`,
  `Maths.SubAgrees` and `Maths.EqAgrees` show that the two drafts compute the
  same thing on every input, so each property proved of one draft holds of the other.

Both drafts implement the same rule for addition: point + point is the
refused case. A third variant that refuses point + vector is not among these
files and is not modelled.

## Model

| member | source | states |
|---|---|---|
| Homogeneous.Abs | src/tuple.rs:94-97 | Absolute value as used by the equality tests: never negative, and equal to the difference or its negation. |
| TupleOps.New | src/tuple.rs:15-22 | The tuple holds exactly the four given coordinates in order; no discriminant is rejected. |
| TupleOps.NewPoint | src/tuple.rs:24-31 | The tuple carries x, y, z unchanged and is a point and not a vector (the test at src/tuple.rs:135-138 checks w == 1). |
| TupleOps.NewVector | src/tuple.rs:33-40 | The tuple carries x, y, z unchanged and is a vector and not a point (the test at src/tuple.rs:141-144 checks w == 0). |
| TupleOps.Origin | src/tuple.rs:42-44 | The origin is the point (0, 0, 0, 1). |
| TupleOps.ZeroVector | src/tuple.rs:46-48 | The zero vector is the vector (0, 0, 0, 0). |
| TupleOps.IsPoint | src/tuple.rs:50-52 | is_point holds exactly when the fourth coordinate w is exactly 1 (no tolerance), and then the tuple is not a vector. |
| TupleOps.IsVector | src/tuple.rs:54-56 | is_vector holds exactly when the fourth coordinate w is exactly 0 (no tolerance). |
| TupleOps.PointVectorExclusive | src/tuple.rs:50-56 | No tuple is both a point and a vector; a tuple is neither exactly when w is neither 0 nor 1. |
| TupleOps.Add | src/tuple.rs:63-73 | Addition fails, with the add-two-points error, exactly when both operands have w == 1; otherwise every component of the result is the sum of the operands' components. |
| TupleOps.AddTyping | src/tuple.rs:63-73 | Point + vector and vector + point succeed and give a point; vector + vector succeeds and gives a vector. |
| TupleOps.Sub | src/tuple.rs:79-89 | Subtraction fails, with the subtract-point-from-vector error, exactly when the left operand has w == 0 and the right w == 1; otherwise every component is the difference of the operands' components. |
| TupleOps.SubTyping | src/tuple.rs:79-89 | Point - point gives a vector, point - vector a point, vector - vector a vector, and none of them fails. |
| TupleOps.AddThenSub | src/tuple.rs:63-89 | After a successful a + b, subtracting b fails exactly when a.w == -1 and b is a point, and otherwise gives back a exactly. |
| TupleOps.SubThenAdd | src/tuple.rs:63-89 | After a successful a - b, adding b fails exactly when a.w == 2 and b is a point, and otherwise gives back a exactly. |
| TupleOps.RoundTripsOnPointsAndVectors | src/tuple.rs:63-89 | When both operands are points or vectors, (a + b) - b and (a - b) + b are always defined and equal a. |
| TupleOps.PointFromOrigin | src/tuple.rs:42-73 | Every point is the origin plus some vector, and that vector is the point minus the origin. |
| TupleOps.DisplacementBetweenPoints | src/tuple.rs:63-89 | For points p and q, p - q is a vector, and adding it to q (on either side) gives p. |
| TupleOps.Neg | src/tuple.rs:104-106 | Every component of the result, w included, is the negation of the operand's component. |
| TupleOps.NegInvolutive | src/tuple.rs:104-106 | Negating twice gives back the original tuple. |
| TupleOps.NegTyping | src/tuple.rs:104-106 | A negated vector is a vector; a negated point has w == -1 and is neither a point nor a vector. |
| TupleOps.NegIsAdditiveInverse | src/tuple.rs:63-106 | Any tuple plus its negation is never refused and is the zero vector. |
| TupleOps.Eq | src/tuple.rs:93-98 | Equality holds exactly when every one of the four coordinates differs by strictly less than EPSILON. |
| TupleOps.EqReflexive | src/tuple.rs:93-98 | Every tuple equals itself. |
| TupleOps.EqSymmetric | src/tuple.rs:93-98 | a equals b exactly when b equals a. |
| TupleOps.EqSeparates | src/tuple.rs:93-98 | Tuples whose w differ by 1 are unequal, and so are tuples with any coordinate exactly EPSILON apart (the comparison is strict). |
| TupleOps.EqCoarserThanIdentity | src/tuple.rs:93-98 | Some distinct tuples are equal: the relation is approximate. |
| TupleOps.EqNotTransitive | src/tuple.rs:93-98 | Some a, b, c have a equal to b and b equal to c but a not equal to c. |
| TupleOps.TestPointAndVector | src/tuple.rs:114-132 | (4.3, -4.2, 3.1, 1) is a point and not a vector; with w = 0 it is a vector and not a point. |
| TupleOps.TestEquals | src/tuple.rs:146-154 | Two copies of (4.3, -4.2, 3.1, 0) are equal; changing w to 1 makes them unequal. |
| TupleOps.TestAdd | src/tuple.rs:156-162 | (3, -2, 5, 1) + (-2, 3, 1, 0) equals (1, 1, 6, 1). |
| TupleOps.TestAddPoints | src/tuple.rs:164-170 | Adding the points (3, -2, 5) and (-2, 3, 1) fails with the add-two-points error. |
| TupleOps.TestSubtractTwoPoints | src/tuple.rs:172-178 | Point (3, 2, 1) - point (5, 6, 7) equals vector (-2, -4, -6). |
| TupleOps.TestSubtractTwoVectors | src/tuple.rs:180-186 | Vector (3, 2, 1) - vector (5, 6, 7) equals vector (-2, -4, -6). |
| TupleOps.TestSubtractVectorFromPoint | src/tuple.rs:188-194 | Point (3, 2, 1) - vector (5, 6, 7) equals point (-2, -4, -6). |
| TupleOps.TestPointFromVector | src/tuple.rs:196-202 | Vector (3, -2, 5) - point (-2, 3, 1) fails with the subtract-point-from-vector error. |
| TupleOps.TestNegate | src/tuple.rs:204-209 | -(1, -2, 3, -4) equals (-1, 2, -3, 4). |
| Maths.New | src/maths.rs:11-18 | The tuple holds exactly the four given coordinates in order; no discriminant is rejected. |
| Maths.NewPoint | src/maths.rs:20-27 | w == 1, x, y, z are carried unchanged, and the tuple is a point and not a vector. |
| Maths.NewVector | src/maths.rs:29-36 | w == 0, x, y, z are carried unchanged, and the tuple is a vector and not a point. |
| Maths.Zero | src/maths.rs:38-45 | zero() is the point (0, 0, 0, 1), so it is a point and not a vector. |
| Maths.IsPoint | src/maths.rs:47-49 | is_point holds exactly when the fourth coordinate w is exactly 1 (no tolerance), and then the tuple is not a vector. |
| Maths.IsVector | src/maths.rs:51-53 | is_vector holds exactly when the fourth coordinate w is exactly 0 (no tolerance). |
| Maths.PointVectorExclusive | src/maths.rs:47-53 | No tuple is both a point and a vector; a tuple is neither exactly when w is neither 0 nor 1. |
| Maths.Add | src/maths.rs:55-65 | add fails, with the add-two-points error, exactly when both operands are points; otherwise every component is the sum of the operands' components. |
| Maths.AddTyping | src/maths.rs:55-65 | Point + vector and vector + point give a point; vector + vector gives a vector; none of them fails. |
| Maths.Sub | src/maths.rs:67-77 | sub fails, with the subtract-point-from-vector error, exactly when the left operand is a vector and the right a point; otherwise every component is the difference. |
| Maths.SubTyping | src/maths.rs:67-77 | Point - point gives a vector, point - vector a point, vector - vector a vector; none of them fails. |
| Maths.RoundTripsOnPointsAndVectors | src/maths.rs:55-77 | When both operands are points or vectors, (a + b) - b and (a - b) + b are always defined and equal a. |
| Maths.Eq | src/maths.rs:80-86 | eq holds exactly when every one of the four coordinates differs by strictly less than EPSILON. |
| Maths.EqReflexive | src/maths.rs:80-86 | Every tuple equals itself. |
| Maths.EqSymmetric | src/maths.rs:80-86 | a equals b exactly when b equals a. |
| Maths.EqSeparatesDiscriminants | src/maths.rs:80-86 | Tuples whose w differ by 1 are unequal. |
| Maths.EqNotTransitive | src/maths.rs:80-86 | Some a, b, c have a equal to b and b equal to c but a not equal to c. |
| Maths.ConstructorsAgree | src/maths.rs:11-45 | new, new_point and new_vector build the same tuples as in src/tuple.rs, and zero() is origin(). |
| Maths.PredicatesAgree | src/maths.rs:47-53 | is_point and is_vector classify every tuple as in src/tuple.rs. |
| Maths.AddAgrees | src/maths.rs:55-65 | add fails and succeeds on the same pairs as `+` in src/tuple.rs, with the same result. |
| Maths.SubAgrees | src/maths.rs:67-77 | sub fails and succeeds on the same pairs as binary `-` in src/tuple.rs, with the same result. |
| Maths.EqAgrees | src/maths.rs:80-86 | eq agrees with the eq of src/tuple.rs on every pair. |
| Maths.TestPointAndVector | src/maths.rs:94-112 | (4.3, -4.2, 3.1, 1) is a point and not a vector; with w = 0 it is a vector and not a point. |
| Maths.TestEquals | src/maths.rs:126-134 | Two copies of (4.3, -4.2, 3.1, 0) are equal; changing w to 1 makes them unequal. |
| Maths.TestAdd | src/maths.rs:136-142 | (3, -2, 5, 1) add (-2, 3, 1, 0) equals (1, 1, 6, 1). |
| Maths.TestAddPoints | src/maths.rs:144-150 | Adding the points (3, -2, 5) and (-2, 3, 1) fails with the add-two-points error. |
| Maths.TestSubtractTwoPoints | src/maths.rs:152-158 | Point (3, 2, 1) sub point (5, 6, 7) equals vector (-2, -4, -6). |
| Maths.TestSubtractTwoVectors | src/maths.rs:160-166 | Vector (3, 2, 1) sub vector (5, 6, 7) equals vector (-2, -4, -6). |
| Maths.TestSubtractVectorFromPoint | src/maths.rs:168-174 | Point (3, 2, 1) sub vector (5, 6, 7) equals point (-2, -4, -6). |
| Maths.TestPointFromVector | src/maths.rs:176-182 | Vector (3, -2, 5) sub point (-2, 3, 1) fails with the subtract-point-from-vector error. |

## Left out

- The `f32` rounding, overflow to infinity, and NaN. Coordinates are exact reals.
- TupleOps.AddThenSub, TupleOps.SubThenAdd, TupleOps.RoundTripsOnPointsAndVectors,
  Maths.RoundTripsOnPointsAndVectors, TupleOps.PointFromOrigin and
  TupleOps.DisplacementBetweenPoints hold for exact reals only. In `f32` they can
  fail even under the approximate `eq`, because its tolerance is absolute: with
  x = 0.1 and x = 100, (a + b) - b comes back about 1.5e-6 away from a, far above
  `f32::EPSILON`.
- The exact value of `f32::EPSILON`. The model uses an abstract constant in (0, 1).
- No transitivity is claimed for approximate equality. `EqNotTransitive` shows
  that it does not hold.
- The `panic!` mechanism, meaning that the process stops. A refused operation
  returns `Failure` instead.
- Ownership. `src/tuple.rs` moves its operands and `src/maths.rs` borrows them.
  Neither draft mutates anything, so on values both are plain functions of their
  inputs.
- The derived `Debug` formatting.
- The test assertions that read raw `f32` fields (`assert_eq!(a.x, 4.3)`). They
  depend on how float literals are represented. The rest of each test is modelled.
- Approximate equality is also read as `!=` (`ne`). Rust derives that as the
  negation of `eq`, so it needs no member of its own.
