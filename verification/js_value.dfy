/**
 * JavaScript values as far as the classifiers and the note mapping look at
 * them: their `typeof`, `Number.isInteger`, and the number the relational
 * operators coerce them to.
 */
module JsValue {
  import opened Wrappers
  import opened JsNumber
  import NumericLiteral

  /**
   * A JavaScript value. Objects (dates, arrays, functions, ...) are opaque
   * references together with the primitive their conversion (ToPrimitive of
   * section 7.1.1 of ECMA-262, through `valueOf` and `toString`) yields:
   * `None` when that conversion throws, as it does for `Object.create(null)`.
   * ToPrimitive never yields an object, so an `Object` given as the primitive
   * is treated as a conversion that throws.
   */
  datatype Value =
    | Undefined
    | Null
    | Bool(b: bool)
    | Num(n: Number)
    | Str(s: string)
    | Symbol(key: nat)
    | Object(ref: nat, primitive: Option<Value>)

  /** How an evaluation ends: with a value, or by throwing a TypeError. */
  datatype Completion<T> = Normal(value: T) | TypeError

  /** The `typeof` operator (functions report "object" here; no caller distinguishes them). */
  function TypeOf(v: Value): (t: string)
    ensures t == "number" <==> v.Num?
    ensures t == "string" <==> v.Str?
  {
    match v
    case Undefined => "undefined"
    case Null => "object"
    case Bool(_) => "boolean"
    case Num(_) => "number"
    case Str(_) => "string"
    case Symbol(_) => "symbol"
    case Object(_, _) => "object"
  }

  /** `Number.isInteger(v)`: no coercion, so only numbers qualify. */
  predicate IsIntegerValue(v: Value) {
    v.Num? && IsInteger(v.n)
  }

  /**
   * The number a relational operator compares `v` as (ToNumeric of section
   * 7.1.3 of ECMA-262), `None` where the conversion throws a TypeError: for a
   * Symbol, and for an object whose primitive is one or that has none.
   */
  function ToNumeric(v: Value): (r: Option<Number>)
    ensures v.Num? ==> r == Some(v.n)
    ensures v.Symbol? || (v.Object? && (v.primitive.None? || v.primitive.value.Object?)) ==> r.None?
    ensures !v.Symbol? && !v.Object? ==> r.Some?
  {
    match v
    case Undefined => Some(NaN)
    case Null => Some(FromInt(0))
    case Bool(b) => Some(FromInt(if b then 1 else 0))
    case Num(n) => Some(n)
    case Str(s) => Some(NumericLiteral.ToNumber(s))
    case Symbol(_) => None
    case Object(_, p) => if p.Some? && !p.value.Object? then ToNumeric(p.value) else None
  }
}
