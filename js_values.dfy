/**
 * The few pieces of JavaScript value semantics that the form's gating
 * expressions rely on: ToBoolean (section 7.1.2 of ECMA-262), the `&&` and
 * `||` operators, which yield one of their operands rather than a boolean
 * (section 13.13 of ECMA-262), and optional chaining on `.length`.
 */
module JsValues {
  import opened Wrappers

  /** A JavaScript value as far as truthiness is concerned; numbers are integers (NaN is not modelled). */
  datatype JsValue = Undefined | Null | Bool(b: bool) | Num(n: int) | Str(s: string) | Object

  /** ToBoolean: `undefined`, `null`, `false`, `0` and `""` are falsy, everything else is truthy. */
  predicate Truthy(v: JsValue) {
    match v
    case Undefined => false
    case Null => false
    case Bool(b) => b
    case Num(n) => n != 0
    case Str(s) => s != ""
    case Object => true
  }

  /** `a && b`: yields `a` when it is falsy and `b` otherwise. */
  function And(a: JsValue, b: JsValue): (r: JsValue)
    ensures Truthy(r) <==> Truthy(a) && Truthy(b)
    ensures !Truthy(a) ==> r == a
  {
    if Truthy(a) then b else a
  }

  /** `a || b`: yields `a` when it is truthy and `b` otherwise. */
  function Or(a: JsValue, b: JsValue): (r: JsValue)
    ensures Truthy(r) <==> Truthy(a) || Truthy(b)
    ensures Truthy(a) ==> r == a
  {
    if Truthy(a) then a else b
  }

  /** `xs?.length`: `undefined` when `xs` is missing, otherwise its length as a number. */
  function OptionalLength<T>(xs: Option<seq<T>>): (r: JsValue)
    ensures Truthy(r) <==> xs.Some? && |xs.value| > 0
    ensures xs.None? ==> r == Undefined
  {
    match xs
    case None => Undefined
    case Some(s) => Num(|s|)
  }
}
