/** The conventional Some/None datatype. */
module Wrappers {
  datatype Option<+T> = None | Some(value: T)
}

/**
 The JavaScript values that a JSON request body can hold, together with the two
 pieces of JavaScript semantics the order handlers depend on: truthiness and
 reading a named property.
 */
module JsValues {

  /** A value produced by parsing a JSON body, plus `undefined`, which is what
      reading an absent key yields. A number is a finite value produced by the
      parser; a string is a sequence of Unicode scalar values. */
  datatype Value =
    | Undefined
    | Null
    | Bool(b: bool)
    | Number(n: real)
    | Str(s: string)
    | Array(elems: seq<Value>)
    | Object(props: map<string, Value>)

  /** `null` and `undefined`: the values whose properties cannot be read. */
  predicate Nullish(v: Value) {
    v.Undefined? || v.Null?
  }

  /** JavaScript truthiness: `undefined`, `null`, `false`, `0` and `""` are
      falsy; every array and every object is truthy, even an empty one. */
  predicate Truthy(v: Value)
    ensures Nullish(v) ==> !Truthy(v)
    ensures v.Array? || v.Object? ==> Truthy(v)
    ensures v.Bool? ==> (Truthy(v) <==> v.b)
    ensures v.Number? ==> (Truthy(v) <==> v.n != 0.0)
    ensures v.Str? ==> (Truthy(v) <==> v.s != "")
  {
    match v
    case Undefined => false
    case Null => false
    case Bool(b) => b
    case Number(n) => n != 0.0
    case Str(s) => s != ""
    case Array(_) => true
    case Object(_) => true
  }

  /** The value of `v.key` for a value that is not nullish (reading a property
      of `null` or `undefined` throws a TypeError instead). Only own keys of an
      object are found: the keys the order handlers read are not built-in
      properties of arrays, strings, numbers, booleans or objects, so on every
      other value the read yields `undefined`. */
  function Member(v: Value, key: string): (r: Value)
    requires !Nullish(v)
    ensures v.Object? && key in v.props ==> r == v.props[key]
    ensures !(v.Object? && key in v.props) ==> r == Undefined
  {
    match v
    case Object(props) => if key in props then props[key] else Undefined
    case _ => Undefined
  }
}
