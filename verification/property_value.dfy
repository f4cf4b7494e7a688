/**
 * `parsePropertyValue`: coerces a raw attribute value to a member's
 * declared property type.
 */
module PropertyValue {
  import opened JsValues
  import opened Metadata

  /**
   * Undefined/null values and untyped properties pass through unchanged.
   * A boolean property yields a real boolean: any string except "false" is
   * true (attribute presence, the empty string included), other values give
   * their truthiness. A number property yields `parseFloat` of the value;
   * JavaScript's float parsing is the parameter `parseFloat`.
   */
  function ParsePropertyValue(propType: int, propValue: Value, parseFloat: Value -> Number): (r: Value)
    ensures !IsDef(propValue) ==> r == propValue
    ensures propType != TypeBoolean && propType != TypeNumber ==> r == propValue
    ensures IsDef(propValue) && propType == TypeBoolean ==>
      r.Bool? && (r.b <==> if propValue.Str? then propValue.s != "false" else Truthy(propValue))
    ensures IsDef(propValue) && propType == TypeNumber ==> r == Num(parseFloat(propValue))
  {
    if IsDef(propValue) then
      if propType == TypeBoolean then
        Bool(if propValue == Str("false") then false else propValue == Str("") || Truthy(propValue))
      else if propType == TypeNumber then
        Num(parseFloat(propValue))
      else
        propValue
    else
      propValue
  }

  /** A boolean property's coercion yields a boolean exactly when the value is defined. */
  lemma BooleanCoercionIsBoolIffDefined(v: Value, parseFloat: Value -> Number)
    ensures ParsePropertyValue(TypeBoolean, v, parseFloat).Bool? <==> IsDef(v)
  {
  }

  /** Coercing an already coerced boolean property changes nothing. */
  lemma BooleanCoercionIdempotent(v: Value, parseFloat: Value -> Number)
    ensures ParsePropertyValue(TypeBoolean, ParsePropertyValue(TypeBoolean, v, parseFloat), parseFloat)
         == ParsePropertyValue(TypeBoolean, v, parseFloat)
  {
  }

  /** Worked examples: "false", "" and "yes" as booleans; undefined and "abc" as numbers. */
  lemma CoercionExamples(parseFloat: Value -> Number)
    ensures ParsePropertyValue(TypeBoolean, Str("false"), parseFloat) == Bool(false)
    ensures ParsePropertyValue(TypeBoolean, Str(""), parseFloat) == Bool(true)
    ensures ParsePropertyValue(TypeBoolean, Str("yes"), parseFloat) == Bool(true)
    ensures ParsePropertyValue(TypeNumber, Undefined, parseFloat) == Undefined
    ensures ParsePropertyValue(TypeNumber, Str("abc"), parseFloat) == Num(parseFloat(Str("abc")))
  {
  }
}
