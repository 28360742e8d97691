/**
 * The JavaScript values that the routes and pages pass around: request
 * bodies, query results, token payloads and reply bodies.  Only the parts
 * of JavaScript semantics that the modelled code relies on are defined here:
 * truthiness, property access and the `||` operator.
 */
module JsValue {

  /** A JSON-like JavaScript value.  Numbers are integers in this model. */
  datatype Value =
    | Undefined
    | Null
    | Bool(b: bool)
    | Num(n: int)
    | Str(s: string)
    | Arr(items: seq<Value>)
    | Obj(fields: map<string, Value>)

  datatype Option<T> = None | Some(value: T)

  /** JavaScript truthiness: `undefined`, `null`, `false`, `0` and `""` are falsy. */
  predicate Truthy(v: Value) {
    match v
    case Undefined => false
    case Null => false
    case Bool(b) => b
    case Num(n) => n != 0
    case Str(s) => s != ""
    case Arr(_) => true
    case Obj(_) => true
  }

  /** Property access `v.key`: `undefined` when `v` is not an object or lacks the key. */
  function Get(v: Value, key: string): Value {
    if v.Obj? && key in v.fields then v.fields[key] else Undefined
  }

  /** `a || b`: the left operand when it is truthy, the right one otherwise. */
  function Or(a: Value, b: Value): (r: Value)
    ensures Truthy(r) <==> Truthy(a) || Truthy(b)
  {
    if Truthy(a) then a else b
  }

  /**
   * `a === b` for two values read from different places of one parsed JSON
   * body: primitives compare by value, while every object or array is a
   * distinct reference, so it is never strictly equal to another one.
   */
  predicate StrictEquals(a: Value, b: Value) {
    a == b && !a.Obj? && !a.Arr?
  }

  /** The error object a database driver hands to a callback when a statement fails. */
  function DbError(code: string): (e: Value)
    ensures Truthy(e) && e.Obj? && Get(e, "code") == Str(code)
  {
    Obj(map["code" := Str(code)])
  }
}
