/**
 * The part of JavaScript's value model that the order service's user check
 * touches: values decoded from JSON, strict equality (`===`), truthiness
 * (the test behind `!x`) and reading the `id` property of a value.
 */
module JsValues {
  import opened Wrappers

  /** A value as JSON decoding produces it. Numbers are exact reals. */
  datatype Value =
    | Undefined
    | Null
    | Bool(b: bool)
    | Number(n: real)
    | Str(s: string)
    | Array(elems: seq<Value>)
    | Object(props: map<string, Value>)

  /** Arrays and objects are references; everything else is a primitive. */
  predicate IsPrimitive(v: Value) {
    !v.Array? && !v.Object?
  }

  /** The two values whose properties cannot be read. */
  predicate IsNullish(v: Value) {
    v.Undefined? || v.Null?
  }

  /**
   * `a === b`, where `a` and `b` come from two different JSON decodings (the
   * request body and the user service's reply). Primitives are equal when
   * they have the same type and the same value, so the string "1" is not
   * equal to the number 1. Arrays and objects are compared by reference, and
   * two separately decoded values are never the same reference.
   */
  function StrictEquals(a: Value, b: Value): (r: bool)
    ensures r <==> IsPrimitive(a) && a == b
  {
    match (a, b)
    case (Undefined, Undefined) => true
    case (Null, Null) => true
    case (Bool(x), Bool(y)) => x == y
    case (Number(x), Number(y)) => x == y
    case (Str(x), Str(y)) => x == y
    case _ => false
  }

  /** ToBoolean, the test behind `!x`: every array and object is truthy. */
  function Truthy(v: Value): (r: bool)
    ensures !r <==> v in {Undefined, Null, Bool(false), Number(0.0), Str("")}
    ensures !IsPrimitive(v) ==> r
  {
    match v
    case Undefined => false
    case Null => false
    case Bool(b) => b
    case Number(n) => n != 0.0
    case Str(s) => s != ""
    case Array(_) => true
    case Object(_) => true
  }

  /**
   * `v.id`: None when the read throws a TypeError (v is undefined or null).
   * An object yields its own `id` property or undefined; no primitive and no
   * array has an `id` property, so they yield undefined.
   */
  function IdOf(v: Value): (r: Option<Value>)
    ensures r.None? <==> IsNullish(v)
    ensures v.Object? && "id" in v.props ==> r == Some(v.props["id"])
    ensures v.Object? && "id" !in v.props ==> r == Some(Undefined)
    ensures !v.Object? && !IsNullish(v) ==> r == Some(Undefined)
  {
    match v
    case Undefined => None
    case Null => None
    case Object(props) => Some(if "id" in props then props["id"] else Undefined)
    case _ => Some(Undefined)
  }
}
