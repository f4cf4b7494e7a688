/**
 * The slice of JavaScript's dynamic values that the decoders inspect:
 * enough to state truthiness (`!!v`) and definedness (`isDef(v)`).
 */
module JsValues {

  /** A JavaScript number: either NaN or a finite value. Infinities are not modelled. */
  datatype Number = NaN | Finite(r: real)

  /** A raw JavaScript value. Objects, arrays and functions are opaque references. */
  datatype Value =
    | Undefined
    | Null
    | Bool(b: bool)
    | Str(s: string)
    | Num(n: Number)
    | Obj(ref: nat)

  /** JavaScript truthiness, the meaning of `!!v`: every value except the six falsy ones. */
  predicate Truthy(v: Value)
    ensures !Truthy(v) <==>
      v == Undefined || v == Null || v == Bool(false) || v == Str("") || v == Num(NaN) || v == Num(Finite(0.0))
  {
    match v
    case Undefined => false
    case Null => false
    case Bool(b) => b
    case Str(s) => s != ""
    case Num(n) => n.Finite? && n.r != 0.0
    case Obj(_) => true
  }

  /** `isDef(v)`: the value is neither `undefined` nor `null`; every truthy value is defined. */
  predicate IsDef(v: Value)
    ensures Truthy(v) ==> IsDef(v)
    ensures !IsDef(v) ==> !Truthy(v) && v != Bool(false) && v != Str("")
  {
    !v.Undefined? && !v.Null?
  }
}
