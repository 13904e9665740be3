/**
 * JSON-like JavaScript values, as the model validators see the JSONB columns
 * they are given, with the three pieces of JavaScript semantics the
 * validators depend on: truthiness, `typeof` and property access.
 */
module JsValues {

  /** A JavaScript value that can appear in a JSONB column (plus `undefined`). */
  datatype JsValue =
    | Undefined
    | Null
    | Bool(b: bool)
    | Num(n: real)
    | Str(s: string)
    | Arr(items: seq<JsValue>)
    | Obj(fields: map<string, JsValue>)

  /** What a validator throws: an `Error` with a message, or the TypeError
      raised by reading a property of `null` or `undefined`. */
  datatype Thrown = Error(message: string) | TypeError

  /** A validator either returns normally or throws. */
  datatype Outcome = Pass | Fail(thrown: Thrown)

  /** JavaScript truthiness: `undefined`, `null`, `false`, `0` and `""` are falsy. */
  predicate Truthy(v: JsValue) {
    match v
    case Undefined => false
    case Null => false
    case Bool(b) => b
    case Num(n) => n != 0.0
    case Str(s) => s != ""
    case Arr(_) => true
    case Obj(_) => true
  }

  /** `typeof v === 'number'`. */
  predicate IsNumber(v: JsValue) {
    v.Num?
  }

  /** `null` and `undefined`, the two values whose properties cannot be read. */
  predicate Nullish(v: JsValue) {
    v.Undefined? || v.Null?
  }

  /** `v[key]` for a key that names no built-in property: a missing own field
      reads as `undefined`, and reading from a nullish value throws. */
  function Property(v: JsValue, key: string): (r: Option<JsValue>)
    ensures r.None? <==> Nullish(v)
    ensures v.Obj? && key !in v.fields ==> r == Some(Undefined)
    ensures !v.Obj? && !Nullish(v) ==> r == Some(Undefined)
  {
    match v
    case Undefined => None
    case Null => None
    case Obj(fields) => Some(if key in fields then fields[key] else Undefined)
    case _ => Some(Undefined)
  }

  /** `v[key]` on a value whose properties can be read. */
  function Field(v: JsValue, key: string): (r: JsValue)
    requires !Nullish(v)
    ensures Property(v, key) == Some(r)
  {
    Property(v, key).value
  }

  datatype Option<+T> = None | Some(value: T)
}
