/**
  The JavaScript values the condition engine reads, compares and writes.

  Objects that live in the request/response context are heap objects,
  named by an address (`Obj`). The `{from, find}` descriptors that rule
  declarations contain are immutable literals (`Desc`); their two slots
  hold any value, so a descriptor can nest another one.
*/
module Values {
  import opened JsBase

  datatype Value =
    | Undefined
    | Null
    | Bool(b: bool)
    | Num(n: int)
    | Str(s: string)
    | Obj(addr: nat)
    | Desc(from: Value, find: Value)

  /** JavaScript truthiness (`if (v)`). */
  predicate Truthy(v: Value) {
    match v
    case Undefined => false
    case Null => false
    case Bool(b) => b
    case Num(n) => n != 0
    case Str(s) => s != ""
    case Obj(_) => true
    case Desc(_, _) => true
  }

  /** `typeof v === 'object'`; note that it holds of `null`. */
  predicate IsObjectTyped(v: Value) {
    v.Null? || v.Obj? || v.Desc?
  }

  /** The string `typeof v` evaluates to. */
  function TypeOf(v: Value): (t: string)
    ensures t == "object" <==> IsObjectTyped(v)
    ensures t == "string" <==> v.Str?
    ensures t == "undefined" <==> v.Undefined?
    ensures t == "boolean" <==> v.Bool?
  {
    match v
    case Undefined => "undefined"
    case Null => "object"
    case Bool(_) => "boolean"
    case Num(_) => "number"
    case Str(_) => "string"
    case Obj(_) => "object"
    case Desc(_, _) => "object"
  }

  /** `String(v)`, as a template string or `String.prototype.replace` converts a value. */
  function ToStr(v: Value): string {
    match v
    case Undefined => "undefined"
    case Null => "null"
    case Bool(b) => if b then "true" else "false"
    case Num(n) => IntToDecimal(n)
    case Str(s) => s
    case Obj(_) => "[object Object]"
    case Desc(_, _) => "[object Object]"
  }
}
