/**
 * JavaScript numbers and the relational operators on them.
 *
 * A finite number is represented by the exact real it denotes; rounding to
 * IEEE-754 doubles and the sign of zero are not modelled.
 */
module JsNumber {
  import opened Wrappers

  datatype Number = Finite(x: real) | NaN | Infinity(negative: bool)

  /** The number denoting the integer `i`. */
  function FromInt(i: int): Number {
    Finite(i as real)
  }

  /** `Number.isInteger(n)` for a number `n`: finite and without fractional part. */
  predicate IsInteger(n: Number) {
    n.Finite? && n.x.Floor as real == n.x
  }

  /** The integer part of a real strictly between `k` and `k + 1` is `k`. */
  lemma FloorBetween(y: real, k: int)
    requires k as real < y < (k + 1) as real
    ensures y.Floor == k
  {
  }

  /** No real strictly between two consecutive integers is an integer. */
  lemma NotIntegerBetween(y: real, k: int)
    requires k as real < y < (k + 1) as real
    ensures !IsInteger(Finite(y))
  {
    FloorBetween(y, k);
  }

  /** Every integer is an integer-valued number. */
  lemma FromIntIsInteger(i: int)
    ensures IsInteger(FromInt(i))
  {
  }

  /**
   * The abstract relational comparison `a < b` on numbers (section 6.1.6.1.12 of
   * ECMA-262, Number::lessThan). `None` stands for its `undefined` result,
   * produced when either operand is NaN.
   */
  function IsLessThan(a: Number, b: Number): (r: Option<bool>)
    ensures r.None? <==> a.NaN? || b.NaN?
    ensures a.Finite? && b.Finite? ==> r == Some(a.x < b.x)
  {
    match (a, b)
    case (NaN, _) => None
    case (_, NaN) => None
    case (Finite(x), Finite(y)) => Some(x < y)
    case (Infinity(negA), Finite(_)) => Some(negA)
    case (Finite(_), Infinity(negB)) => Some(!negB)
    case (Infinity(negA), Infinity(negB)) => Some(negA && !negB)
  }

  /** `a < b`: an undefined comparison reads as false. */
  predicate Lt(a: Number, b: Number) {
    IsLessThan(a, b) == Some(true)
  }

  /** `a > b`. */
  predicate Gt(a: Number, b: Number) {
    IsLessThan(b, a) == Some(true)
  }

  /** `a <= b`: true only when `b < a` is defined and false. */
  predicate Le(a: Number, b: Number) {
    IsLessThan(b, a) == Some(false)
  }

  /** `a >= b`: true only when `a < b` is defined and false. */
  predicate Ge(a: Number, b: Number) {
    IsLessThan(a, b) == Some(false)
  }

  /**
   * On numbers other than NaN, `>=` and `<=` are the negations of `<` and `>`;
   * with a NaN operand all four operators are false.
   */
  lemma ComparisonDuality(a: Number, b: Number)
    ensures !a.NaN? && !b.NaN? ==> (Ge(a, b) <==> !Lt(a, b)) && (Le(a, b) <==> !Gt(a, b))
    ensures a.NaN? || b.NaN? ==> !Lt(a, b) && !Gt(a, b) && !Le(a, b) && !Ge(a, b)
  {
  }
}
