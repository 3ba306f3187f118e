/** The dynamic JavaScript values that the modelled setters and validators inspect. */
module JsValues {

  /** A JavaScript number: a finite value, NaN, or one of the infinities. */
  datatype Number = Finite(x: real) | NaN | PosInfinity | NegInfinity

  /** The argument shapes the source distinguishes with `=== null`, `typeof`, `instanceof String`,
      `Number.isInteger` and `Array.isArray`. A `String` object and a primitive string are both `Str`. */
  datatype JsValue =
    | Undefined
    | Null
    | Bool(b: bool)
    | Num(n: Number)
    | Str(s: string)
    | Arr(elems: seq<JsValue>)
    | Object

  /** `Number.isInteger(v)` for a number. */
  predicate IsInteger(n: Number)
  {
    n.Finite? && n.x.Floor as real == n.x
  }

  /** `Number.isInteger(v)` for an arbitrary value: false for everything that is not a number. */
  predicate IsIntegerValue(v: JsValue)
  {
    v.Num? && IsInteger(v.n)
  }

  /** The integer held by an integral number. */
  function IntegerOf(v: JsValue): (k: int)
    requires IsIntegerValue(v)
    ensures k as real == v.n.x
  {
    v.n.x.Floor
  }

  /** The JavaScript number for an integer. */
  function IntNum(k: int): (v: JsValue)
    ensures IsIntegerValue(v) && IntegerOf(v) == k
  {
    Num(Finite(k as real))
  }
}
