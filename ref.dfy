/** `Ref<T>`: a shared, settable box around a comparable value, with comparison operators
    between a box and a bare value in either order. */
module Utility {

  /** The comparison `CompareTo` supplies, reduced to its sign: positive when the first
      argument is greater, negative when it is smaller. */
  type Compare<!T> = (T, T) -> int

  /** The contract of `IComparable<T>.CompareTo` on a total order: swapping the arguments
      swaps the sign. */
  ghost predicate Antisymmetric<T(!new)>(compare: Compare<T>) {
    forall a: T, b: T :: compare(a, b) > 0 <==> compare(b, a) < 0
  }

  class Ref<T> {
    var value: T

    constructor (value: T)
      ensures this.value == value
    {
      this.value := value;
    }

    /** `ref > x` */
    predicate GreaterThan(x: T, compare: Compare<T>)
      reads this
    {
      compare(value, x) > 0
    }

    /** `ref < x` */
    predicate LessThan(x: T, compare: Compare<T>)
      reads this
    {
      compare(value, x) < 0
    }
  }

  /** `x > ref` */
  predicate ValueGreaterThanRef<T>(x: T, r: Ref<T>, compare: Compare<T>)
    reads r
  {
    compare(x, r.value) > 0
  }

  /** `x < ref` */
  predicate ValueLessThanRef<T>(x: T, r: Ref<T>, compare: Compare<T>)
    reads r
  {
    compare(x, r.value) < 0
  }

  /** A box is never both greater and smaller than the same value, and a value never both
      greater and smaller than the same box. This needs no premise about the comparison:
      no result of `CompareTo` is both positive and negative. */
  lemma ComparisonsExclusive<T>(r: Ref<T>, x: T, compare: Compare<T>)
    ensures !(r.GreaterThan(x, compare) && r.LessThan(x, compare))
    ensures !(ValueGreaterThanRef(x, r, compare) && ValueLessThanRef(x, r, compare))
  {
  }

  /** For an antisymmetric comparison the two operand orders agree: `ref > x` iff `x < ref`,
      and `ref < x` iff `x > ref`. */
  lemma MirroredOperatorsAgree<T(!new)>(r: Ref<T>, x: T, compare: Compare<T>)
    requires Antisymmetric(compare)
    ensures r.GreaterThan(x, compare) <==> ValueLessThanRef(x, r, compare)
    ensures r.LessThan(x, compare) <==> ValueGreaterThanRef(x, r, compare)
  {
    assert compare(r.value, x) > 0 <==> compare(x, r.value) < 0;
    assert compare(x, r.value) > 0 <==> compare(r.value, x) < 0;
  }

  /** `CompareTo` of the numeric types, on values that are not NaN. */
  function NumericCompare(a: real, b: real): (r: int)
    ensures r > 0 <==> a > b
    ensures r < 0 <==> a < b
    ensures r == 0 <==> a == b
  {
    if a > b then 1 else if a < b then -1 else 0
  }

  lemma NumericCompareAntisymmetric()
    ensures Antisymmetric(NumericCompare)
  {
  }

  /** Over numbers the operators are the ordinary order on the boxed value. */
  lemma NumericOperatorsFollowOrder(r: Ref<real>, x: real)
    ensures r.GreaterThan(x, NumericCompare) <==> r.value > x
    ensures r.LessThan(x, NumericCompare) <==> r.value < x
    ensures ValueGreaterThanRef(x, r, NumericCompare) <==> x > r.value
    ensures ValueLessThanRef(x, r, NumericCompare) <==> x < r.value
  {
  }

  /** A box holding 123 compared with 456, in both operand orders. */
  method CompareWithRefOnEitherSide() returns (refGreater: bool, refLess: bool, valueGreater: bool, valueLess: bool)
    ensures !refGreater && refLess
    ensures !valueGreater && valueLess
  {
    var left := new Ref(123.0);
    refGreater := left.GreaterThan(456.0, NumericCompare);
    refLess := left.LessThan(456.0, NumericCompare);
    var right := new Ref(456.0);
    valueGreater := ValueGreaterThanRef(123.0, right, NumericCompare);
    valueLess := ValueLessThanRef(123.0, right, NumericCompare);
  }
}
