/** The operator-overloaded draft of the tuple (src/tuple.rs): constructors, the
    point/vector predicates, `+`, binary `-`, unary `-` and approximate equality.
    Every operation takes its operands by value and builds a fresh tuple. */
module TupleOps {
  import opened Homogeneous

  // ---------------------------------------------------------------------------
  // Construction

  /** `Tuple::new`: any discriminant is accepted, nothing is validated. */
  function New(x: real, y: real, z: real, w: real): (r: Tuple)
    ensures Components(r) == [x, y, z, w]
  {
    Tuple(x, y, z, w)
  }

  /** `Tuple::new_point`: the given coordinates with discriminant 1. */
  function NewPoint(x: real, y: real, z: real): (r: Tuple)
    ensures IsPoint(r) && !IsVector(r)
    ensures Components(r)[..3] == [x, y, z]
  {
    Tuple(x, y, z, 1.0)
  }

  /** `Tuple::new_vector`: the given coordinates with discriminant 0. */
  function NewVector(x: real, y: real, z: real): (r: Tuple)
    ensures IsVector(r) && !IsPoint(r)
    ensures Components(r)[..3] == [x, y, z]
  {
    Tuple(x, y, z, 0.0)
  }

  /** `Tuple::origin`: the point at (0, 0, 0). */
  function Origin(): (r: Tuple)
    ensures IsPoint(r)
    ensures Components(r) == [0.0, 0.0, 0.0, 1.0]
  {
    NewPoint(0.0, 0.0, 0.0)
  }

  /** `Tuple::zero_vector`: the vector of length zero. */
  function ZeroVector(): (r: Tuple)
    ensures IsVector(r)
    ensures Components(r) == [0.0, 0.0, 0.0, 0.0]
  {
    NewVector(0.0, 0.0, 0.0)
  }

  // ---------------------------------------------------------------------------
  // Predicates: exact comparisons of the discriminant, no tolerance

  /** `is_point`: the fourth coordinate is exactly 1, so a point is never a vector. */
  function IsPoint(t: Tuple): (r: bool)
    ensures r <==> Components(t)[3] == 1.0
    ensures r ==> !IsVector(t)
  {
    t.w == 1.0
  }

  /** `is_vector`: the fourth coordinate is exactly 0. */
  function IsVector(t: Tuple): (r: bool)
    ensures r <==> Components(t)[3] == 0.0
  {
    t.w == 0.0
  }

  /** No tuple is both a point and a vector; a tuple with any discriminant
      other than 0 and 1 (a negated point, say) is neither. */
  lemma PointVectorExclusive(t: Tuple)
    ensures !(IsPoint(t) && IsVector(t))
    ensures t.w != 0.0 && t.w != 1.0 <==> !IsPoint(t) && !IsVector(t)
  {
  }

  // ---------------------------------------------------------------------------
  // Arithmetic

  /** `Add::add`: refuses point + point, otherwise adds component by component. */
  function Add(a: Tuple, b: Tuple): (r: Result<Tuple>)
    ensures r.Failure? <==> IsPoint(a) && IsPoint(b)
    ensures r.Failure? ==> r.error == CannotAddTwoPoints
    ensures r.Success? ==>
      forall i :: 0 <= i < 4 ==> Components(r.value)[i] == Components(a)[i] + Components(b)[i]
  {
    if a.w == 1.0 && b.w == 1.0 then
      Failure(CannotAddTwoPoints)
    else
      Success(Tuple(a.x + b.x, a.y + b.y, a.z + b.z, a.w + b.w))
  }

  /** The discriminant of a sum comes out right by plain addition. */
  lemma AddTyping(a: Tuple, b: Tuple)
    ensures IsPoint(a) && IsVector(b) ==> Add(a, b).Success? && IsPoint(Add(a, b).value)
    ensures IsVector(a) && IsPoint(b) ==> Add(a, b).Success? && IsPoint(Add(a, b).value)
    ensures IsVector(a) && IsVector(b) ==> Add(a, b).Success? && IsVector(Add(a, b).value)
  {
  }

  /** `Sub::sub`: refuses vector - point, otherwise subtracts component by component. */
  function Sub(a: Tuple, b: Tuple): (r: Result<Tuple>)
    ensures r.Failure? <==> IsVector(a) && IsPoint(b)
    ensures r.Failure? ==> r.error == CannotSubtractPointFromVector
    ensures r.Success? ==>
      forall i :: 0 <= i < 4 ==> Components(r.value)[i] == Components(a)[i] - Components(b)[i]
  {
    if a.w == 0.0 && b.w == 1.0 then
      Failure(CannotSubtractPointFromVector)
    else
      Success(Tuple(a.x - b.x, a.y - b.y, a.z - b.z, a.w - b.w))
  }

  /** The discriminant of a difference comes out right by plain subtraction. */
  lemma SubTyping(a: Tuple, b: Tuple)
    ensures IsPoint(a) && IsPoint(b) ==> Sub(a, b).Success? && IsVector(Sub(a, b).value)
    ensures IsPoint(a) && IsVector(b) ==> Sub(a, b).Success? && IsPoint(Sub(a, b).value)
    ensures IsVector(a) && IsVector(b) ==> Sub(a, b).Success? && IsVector(Sub(a, b).value)
  {
  }

  /** Subtracting what was added gives back the left operand exactly. The
      subtraction is refused only when the sum is a vector and the right operand a
      point, which happens exactly when the left operand had discriminant -1. */
  lemma AddThenSub(a: Tuple, b: Tuple)
    requires Add(a, b).Success?
    ensures Sub(Add(a, b).value, b).Success? <==> !(a.w == -1.0 && IsPoint(b))
    ensures Sub(Add(a, b).value, b).Success? ==> Sub(Add(a, b).value, b).value == a
  {
  }

  /** Adding back what was subtracted gives back the left operand exactly; the
      addition is refused only when the left operand had discriminant 2. */
  lemma SubThenAdd(a: Tuple, b: Tuple)
    requires Sub(a, b).Success?
    ensures Add(Sub(a, b).value, b).Success? <==> !(a.w == 2.0 && IsPoint(b))
    ensures Add(Sub(a, b).value, b).Success? ==> Add(Sub(a, b).value, b).value == a
  {
  }

  /** For points and vectors the round trips are never refused. */
  lemma RoundTripsOnPointsAndVectors(a: Tuple, b: Tuple)
    requires IsPoint(a) || IsVector(a)
    requires IsPoint(b) || IsVector(b)
    ensures Add(a, b).Success? ==> Sub(Add(a, b).value, b) == Success(a)
    ensures Sub(a, b).Success? ==> Add(Sub(a, b).value, b) == Success(a)
  {
    if Add(a, b).Success? {
      AddThenSub(a, b);
    }
    if Sub(a, b).Success? {
      SubThenAdd(a, b);
    }
  }

  /** Every point is reached from the origin by exactly one vector. */
  lemma PointFromOrigin(p: Tuple)
    requires IsPoint(p)
    ensures exists v :: IsVector(v) && Add(Origin(), v) == Success(p)
    ensures forall v :: IsVector(v) && Add(Origin(), v) == Success(p) ==> v == Sub(p, Origin()).value
  {
    var v := NewVector(p.x, p.y, p.z);
    assert Add(Origin(), v) == Success(p);
  }

  /** The difference of two points is the vector that carries the second onto the first. */
  lemma DisplacementBetweenPoints(p: Tuple, q: Tuple)
    requires IsPoint(p) && IsPoint(q)
    ensures IsVector(Sub(p, q).value)
    ensures Add(q, Sub(p, q).value) == Success(p)
    ensures Add(Sub(p, q).value, q) == Success(p)
  {
  }

  /** `Neg::neg`: every component, the discriminant included, changes sign. */
  function Neg(a: Tuple): (r: Tuple)
    ensures forall i :: 0 <= i < 4 ==> Components(r)[i] == -Components(a)[i]
  {
    New(-a.x, -a.y, -a.z, -a.w)
  }

  /** Negation undoes itself. */
  lemma NegInvolutive(a: Tuple)
    ensures Neg(Neg(a)) == a
  {
  }

  /** A negated vector is a vector; a negated point has discriminant -1 and is
      neither a point nor a vector. */
  lemma NegTyping(a: Tuple)
    ensures IsVector(a) ==> IsVector(Neg(a))
    ensures IsPoint(a) ==> Neg(a).w == -1.0 && !IsPoint(Neg(a)) && !IsVector(Neg(a))
  {
  }

  /** Any tuple plus its negation is the zero vector; the sum is never refused,
      since a tuple and its negation cannot both have discriminant 1. */
  lemma NegIsAdditiveInverse(a: Tuple)
    ensures Add(a, Neg(a)) == Success(ZeroVector())
  {
  }

  // ---------------------------------------------------------------------------
  // Approximate equality

  /** `PartialEq::eq`: every coordinate differs by strictly less than EPSILON. */
  function Eq(a: Tuple, b: Tuple): (r: bool)
    ensures r <==> forall i :: 0 <= i < 4 ==> Abs(Components(a)[i] - Components(b)[i]) < EPSILON
  {
    assert Components(a) == [a.x, a.y, a.z, a.w] && Components(b) == [b.x, b.y, b.z, b.w];
    Abs(a.x - b.x) < EPSILON
      && Abs(a.y - b.y) < EPSILON
      && Abs(a.z - b.z) < EPSILON
      && Abs(a.w - b.w) < EPSILON
  }

  lemma EqReflexive(a: Tuple)
    ensures Eq(a, a)
  {
  }

  lemma EqSymmetric(a: Tuple, b: Tuple)
    ensures Eq(a, b) <==> Eq(b, a)
  {
  }

  /** Tuples whose discriminants differ by 1 (a point and a vector) are unequal,
      and so is any pair with a coordinate exactly EPSILON apart. */
  lemma EqSeparates(a: Tuple, b: Tuple)
    ensures Abs(a.w - b.w) == 1.0 ==> !Eq(a, b)
    ensures (exists i :: 0 <= i < 4 && Abs(Components(a)[i] - Components(b)[i]) == EPSILON as real) ==> !Eq(a, b)
  {
  }

  /** Equality is strictly coarser than identity: distinct tuples can be equal. */
  lemma EqCoarserThanIdentity()
    ensures exists a, b :: a != b && Eq(a, b)
  {
    var a := New(0.0, 0.0, 0.0, 0.0);
    var b := New(EPSILON / 2.0, 0.0, 0.0, 0.0);
    assert a != b && Eq(a, b);
  }

  /** Equality is not transitive, which is why no transitivity is claimed. */
  lemma EqNotTransitive()
    ensures exists a, b, c :: Eq(a, b) && Eq(b, c) && !Eq(a, c)
  {
    var a := NewVector(0.0, 0.0, 0.0);
    var b := NewVector(EPSILON * 0.75, 0.0, 0.0);
    var c := NewVector(EPSILON * 1.5, 0.0, 0.0);
    assert Eq(a, b) && Eq(b, c) && !Eq(a, c);
  }

  // ---------------------------------------------------------------------------
  // The scenarios of the file's unit tests

  lemma TestPointAndVector()
    ensures IsPoint(New(4.3, -4.2, 3.1, 1.0)) && !IsVector(New(4.3, -4.2, 3.1, 1.0))
    ensures !IsPoint(New(4.3, -4.2, 3.1, 0.0)) && IsVector(New(4.3, -4.2, 3.1, 0.0))
  {
  }

  lemma TestEquals()
    ensures Eq(New(4.3, -4.2, 3.1, 0.0), New(4.3, -4.2, 3.1, 0.0))
    ensures !Eq(New(4.3, -4.2, 3.1, 0.0), New(4.3, -4.2, 3.1, 1.0))
  {
  }

  lemma TestAdd()
    ensures Eq(Add(New(3.0, -2.0, 5.0, 1.0), New(-2.0, 3.0, 1.0, 0.0)).value, New(1.0, 1.0, 6.0, 1.0))
  {
  }

  lemma TestAddPoints()
    ensures Add(NewPoint(3.0, -2.0, 5.0), NewPoint(-2.0, 3.0, 1.0)) == Failure(CannotAddTwoPoints)
  {
  }

  lemma TestSubtractTwoPoints()
    ensures Eq(Sub(NewPoint(3.0, 2.0, 1.0), NewPoint(5.0, 6.0, 7.0)).value, NewVector(-2.0, -4.0, -6.0))
  {
  }

  lemma TestSubtractTwoVectors()
    ensures Eq(Sub(NewVector(3.0, 2.0, 1.0), NewVector(5.0, 6.0, 7.0)).value, NewVector(-2.0, -4.0, -6.0))
  {
    assert Sub(NewVector(3.0, 2.0, 1.0), NewVector(5.0, 6.0, 7.0)).value == NewVector(-2.0, -4.0, -6.0);
    EqReflexive(NewVector(-2.0, -4.0, -6.0));
  }

  lemma TestSubtractVectorFromPoint()
    ensures Eq(Sub(NewPoint(3.0, 2.0, 1.0), NewVector(5.0, 6.0, 7.0)).value, NewPoint(-2.0, -4.0, -6.0))
  {
    assert Sub(NewPoint(3.0, 2.0, 1.0), NewVector(5.0, 6.0, 7.0)).value == NewPoint(-2.0, -4.0, -6.0);
    EqReflexive(NewPoint(-2.0, -4.0, -6.0));
  }

  lemma TestPointFromVector()
    ensures Sub(NewVector(3.0, -2.0, 5.0), NewPoint(-2.0, 3.0, 1.0)) == Failure(CannotSubtractPointFromVector)
  {
  }

  lemma TestNegate()
    ensures Eq(Neg(New(1.0, -2.0, 3.0, -4.0)), New(-1.0, 2.0, -3.0, 4.0))
  {
  }
}
