/** JavaScript values as they arrive in a parsed JSON request body, with the two
    pieces of JavaScript semantics the handlers depend on: truthiness (`!x`) and
    reading a property during object destructuring. */
module Js {

  datatype Option<+T> = None | Some(value: T)

  /** A JavaScript value. JSON numbers are finite, so a number is a `real`;
      `Undefined` is what reading a missing property yields. */
  datatype JsValue =
    | Undefined
    | Null
    | Bool(b: bool)
    | Num(n: real)
    | Str(s: string)
    | Arr(items: seq<JsValue>)
    | Obj(fields: map<string, JsValue>)

  /** JavaScript truthiness: `undefined`, `null`, `false`, `0` and `""` are falsy,
      every other value (including every array and object) is truthy. */
  predicate Truthy(v: JsValue): (r: bool)
    ensures r <==> v != Undefined && v != Null && v != Bool(false) && v != Num(0.0) && v != Str("")
  {
    match v
    case Undefined => false
    case Null => false
    case Bool(b) => b
    case Num(n) => n != 0.0
    case Str(s) => s != ""
    case Arr(_) => true
    case Obj(_) => true
  }

  /** Destructuring `const { name } = v` throws a TypeError exactly when `v` is
      `null` or `undefined`. */
  predicate Destructurable(v: JsValue) {
    !v.Undefined? && !v.Null?
  }

  /** The value of property `name` of `v`: an object's own field, `undefined`
      for a missing field and for every primitive or array (none of which
      carries the fields the handlers read). */
  function Property(v: JsValue, name: string): (r: JsValue)
    requires Destructurable(v)
    ensures v.Obj? && name in v.fields ==> r == v.fields[name]
    ensures !v.Obj? || name !in v.fields ==> r == Undefined
  {
    match v
    case Obj(fields) => if name in fields then fields[name] else Undefined
    case _ => Undefined
  }

  /** `v || fallback`: the value itself when truthy, the fallback otherwise. */
  function Or(v: JsValue, fallback: JsValue): (r: JsValue)
    ensures Truthy(v) ==> r == v
    ensures !Truthy(v) ==> r == fallback
  {
    if Truthy(v) then v else fallback
  }
}
