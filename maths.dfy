/** The named-method draft of the tuple (src/maths.rs): the same value type with
    `add` and `sub` taking both operands by shared borrow, a `zero` constructor
    and no negation. */
module Maths {
  import opened Homogeneous
  import TupleOps

  // ---------------------------------------------------------------------------
  // Construction

  /** `Tuple::new`: any discriminant is accepted, nothing is validated. */
  function New(x: real, y: real, z: real, w: real): (r: Tuple)
    ensures Components(r) == [x, y, z, w]
  {
    Tuple(x, y, z, w)
  }

  /** `Tuple::new_point`: the given coordinates with discriminant 1. */
  function NewPoint(x: real, y: real, z: real): (r: Tuple)
    ensures r.w == 1.0 && IsPoint(r) && !IsVector(r)
    ensures Components(r)[..3] == [x, y, z]
  {
    Tuple(x, y, z, 1.0)
  }

  /** `Tuple::new_vector`: the given coordinates with discriminant 0. */
  function NewVector(x: real, y: real, z: real): (r: Tuple)
    ensures r.w == 0.0 && IsVector(r) && !IsPoint(r)
    ensures Components(r)[..3] == [x, y, z]
  {
    Tuple(x, y, z, 0.0)
  }

  /** `Tuple::zero`: despite its name, the point at the origin, not the zero vector. */
  function Zero(): (r: Tuple)
    ensures IsPoint(r) && !IsVector(r)
    ensures Components(r) == [0.0, 0.0, 0.0, 1.0]
  {
    Tuple(0.0, 0.0, 0.0, 1.0)
  }

  // ---------------------------------------------------------------------------
  // Predicates: exact comparisons of the discriminant, no tolerance

  /** `is_point`: the fourth coordinate is exactly 1, so a point is never a vector. */
  function IsPoint(t: Tuple): (r: bool)
    ensures r <==> Components(t)[3] == 1.0
    ensures r ==> !IsVector(t)
  {
    t.w == 1.0
  }

  /** `is_vector`: the fourth coordinate is exactly 0. */
  function IsVector(t: Tuple): (r: bool)
    ensures r <==> Components(t)[3] == 0.0
  {
    t.w == 0.0
  }

  /** No tuple is both a point and a vector; one with another discriminant is neither. */
  lemma PointVectorExclusive(t: Tuple)
    ensures !(IsPoint(t) && IsVector(t))
    ensures t.w != 0.0 && t.w != 1.0 <==> !IsPoint(t) && !IsVector(t)
  {
  }

  // ---------------------------------------------------------------------------
  // Arithmetic. Both operands are borrowed, so the caller keeps them as they were;
  // on values this is simply that `a` and `b` are not consumed.

  /** `Tuple::add`: refuses point + point, otherwise adds component by component. */
  function Add(a: Tuple, b: Tuple): (r: Result<Tuple>)
    ensures r.Failure? <==> IsPoint(a) && IsPoint(b)
    ensures r.Failure? ==> r.error == CannotAddTwoPoints
    ensures r.Success? ==>
      forall i :: 0 <= i < 4 ==> Components(r.value)[i] == Components(a)[i] + Components(b)[i]
  {
    if a.w == 1.0 && b.w == 1.0 then
      Failure(CannotAddTwoPoints)
    else
      Success(Tuple(a.x + b.x, a.y + b.y, a.z + b.z, a.w + b.w))
  }

  /** The discriminant of a sum comes out right by plain addition. */
  lemma AddTyping(a: Tuple, b: Tuple)
    ensures IsPoint(a) && IsVector(b) ==> Add(a, b).Success? && IsPoint(Add(a, b).value)
    ensures IsVector(a) && IsPoint(b) ==> Add(a, b).Success? && IsPoint(Add(a, b).value)
    ensures IsVector(a) && IsVector(b) ==> Add(a, b).Success? && IsVector(Add(a, b).value)
  {
  }

  /** `Tuple::sub`: refuses vector - point, otherwise subtracts component by component. */
  function Sub(a: Tuple, b: Tuple): (r: Result<Tuple>)
    ensures r.Failure? <==> IsVector(a) && IsPoint(b)
    ensures r.Failure? ==> r.error == CannotSubtractPointFromVector
    ensures r.Success? ==>
      forall i :: 0 <= i < 4 ==> Components(r.value)[i] == Components(a)[i] - Components(b)[i]
  {
    if a.w == 0.0 && b.w == 1.0 then
      Failure(CannotSubtractPointFromVector)
    else
      Success(Tuple(a.x - b.x, a.y - b.y, a.z - b.z, a.w - b.w))
  }

  /** The discriminant of a difference comes out right by plain subtraction. */
  lemma SubTyping(a: Tuple, b: Tuple)
    ensures IsPoint(a) && IsPoint(b) ==> Sub(a, b).Success? && IsVector(Sub(a, b).value)
    ensures IsPoint(a) && IsVector(b) ==> Sub(a, b).Success? && IsPoint(Sub(a, b).value)
    ensures IsVector(a) && IsVector(b) ==> Sub(a, b).Success? && IsVector(Sub(a, b).value)
  {
  }

  /** The round trips through add and sub give back the left operand whenever
      both operands are points or vectors. */
  lemma RoundTripsOnPointsAndVectors(a: Tuple, b: Tuple)
    requires IsPoint(a) || IsVector(a)
    requires IsPoint(b) || IsVector(b)
    ensures Add(a, b).Success? ==> Sub(Add(a, b).value, b) == Success(a)
    ensures Sub(a, b).Success? ==> Add(Sub(a, b).value, b) == Success(a)
  {
  }

  // ---------------------------------------------------------------------------
  // Approximate equality

  /** `PartialEq::eq`: four strict tests of |difference| < EPSILON. */
  function Eq(a: Tuple, b: Tuple): (r: bool)
    ensures r <==> forall i :: 0 <= i < 4 ==> Abs(Components(a)[i] - Components(b)[i]) < EPSILON
  {
    assert Components(a) == [a.x, a.y, a.z, a.w] && Components(b) == [b.x, b.y, b.z, b.w];
    Abs(a.x - b.x) < EPSILON
      && Abs(a.y - b.y) < EPSILON
      && Abs(a.z - b.z) < EPSILON
      && Abs(a.w - b.w) < EPSILON
  }

  lemma EqReflexive(a: Tuple)
    ensures Eq(a, a)
  {
  }

  lemma EqSymmetric(a: Tuple, b: Tuple)
    ensures Eq(a, b) <==> Eq(b, a)
  {
  }

  /** Tuples whose discriminants differ by 1 are unequal. */
  lemma EqSeparatesDiscriminants(a: Tuple, b: Tuple)
    requires Abs(a.w - b.w) == 1.0
    ensures !Eq(a, b)
  {
  }

  // ---------------------------------------------------------------------------
  // The two drafts compute the same thing

  /** The constructors of the two drafts build the same tuples; `zero()` is `origin()`. */
  lemma ConstructorsAgree(x: real, y: real, z: real, w: real)
    ensures New(x, y, z, w) == TupleOps.New(x, y, z, w)
    ensures NewPoint(x, y, z) == TupleOps.NewPoint(x, y, z)
    ensures NewVector(x, y, z) == TupleOps.NewVector(x, y, z)
    ensures Zero() == TupleOps.Origin()
  {
  }

  /** The two drafts classify every tuple alike. */
  lemma PredicatesAgree(t: Tuple)
    ensures IsPoint(t) == TupleOps.IsPoint(t)
    ensures IsVector(t) == TupleOps.IsVector(t)
  {
  }

  /** `add` here and `+` in the other draft fail and succeed alike, with the same result. */
  lemma AddAgrees(a: Tuple, b: Tuple)
    ensures Add(a, b) == TupleOps.Add(a, b)
  {
  }

  /** `sub` here and binary `-` in the other draft agree on every pair. */
  lemma SubAgrees(a: Tuple, b: Tuple)
    ensures Sub(a, b) == TupleOps.Sub(a, b)
  {
  }

  /** The two `eq` implementations agree on every pair. */
  lemma EqAgrees(a: Tuple, b: Tuple)
    ensures Eq(a, b) == TupleOps.Eq(a, b)
  {
  }

  /** As in the other draft, equality is not transitive. */
  lemma EqNotTransitive()
    ensures exists a, b, c :: Eq(a, b) && Eq(b, c) && !Eq(a, c)
  {
    TupleOps.EqNotTransitive();
    var a, b, c :| TupleOps.Eq(a, b) && TupleOps.Eq(b, c) && !TupleOps.Eq(a, c);
    EqAgrees(a, b);
    EqAgrees(b, c);
    EqAgrees(a, c);
  }

  // ---------------------------------------------------------------------------
  // The scenarios of the file's unit tests

  lemma TestPointAndVector()
    ensures IsPoint(New(4.3, -4.2, 3.1, 1.0)) && !IsVector(New(4.3, -4.2, 3.1, 1.0))
    ensures !IsPoint(New(4.3, -4.2, 3.1, 0.0)) && IsVector(New(4.3, -4.2, 3.1, 0.0))
  {
  }

  lemma TestEquals()
    ensures Eq(New(4.3, -4.2, 3.1, 0.0), New(4.3, -4.2, 3.1, 0.0))
    ensures !Eq(New(4.3, -4.2, 3.1, 0.0), New(4.3, -4.2, 3.1, 1.0))
  {
  }

  lemma TestAdd()
    ensures Eq(Add(New(3.0, -2.0, 5.0, 1.0), New(-2.0, 3.0, 1.0, 0.0)).value, New(1.0, 1.0, 6.0, 1.0))
  {
  }

  lemma TestAddPoints()
    ensures Add(NewPoint(3.0, -2.0, 5.0), NewPoint(-2.0, 3.0, 1.0)) == Failure(CannotAddTwoPoints)
  {
  }

  lemma TestSubtractTwoPoints()
    ensures Eq(Sub(NewPoint(3.0, 2.0, 1.0), NewPoint(5.0, 6.0, 7.0)).value, NewVector(-2.0, -4.0, -6.0))
  {
    assert Sub(NewPoint(3.0, 2.0, 1.0), NewPoint(5.0, 6.0, 7.0)).value == NewVector(-2.0, -4.0, -6.0);
    EqReflexive(NewVector(-2.0, -4.0, -6.0));
  }

  lemma TestSubtractTwoVectors()
    ensures Eq(Sub(NewVector(3.0, 2.0, 1.0), NewVector(5.0, 6.0, 7.0)).value, NewVector(-2.0, -4.0, -6.0))
  {
    assert Sub(NewVector(3.0, 2.0, 1.0), NewVector(5.0, 6.0, 7.0)).value == NewVector(-2.0, -4.0, -6.0);
    EqReflexive(NewVector(-2.0, -4.0, -6.0));
  }

  lemma TestSubtractVectorFromPoint()
    ensures Eq(Sub(NewPoint(3.0, 2.0, 1.0), NewVector(5.0, 6.0, 7.0)).value, NewPoint(-2.0, -4.0, -6.0))
  {
    assert Sub(NewPoint(3.0, 2.0, 1.0), NewVector(5.0, 6.0, 7.0)).value == NewPoint(-2.0, -4.0, -6.0);
    EqReflexive(NewPoint(-2.0, -4.0, -6.0));
  }

  lemma TestPointFromVector()
    ensures Sub(NewVector(3.0, -2.0, 5.0), NewPoint(-2.0, 3.0, 1.0)) == Failure(CannotSubtractPointFromVector)
  {
  }
}
