/** JavaScript values as the backend and the frontends see them: optional values,
    the scalars a JSON record holds, truthiness, `||` defaults and object spread. */
module Js {
  import Text

  datatype Option<+T> = None | Some(value: T)

  /** A scalar of a JSON record. Numbers are modelled as integers. A key that is
      absent from a record reads as `Undefined`. */
  datatype Value = Undefined | Null | Bool(b: bool) | Num(n: int) | Str(s: string)

  /** A plain JavaScript object with scalar fields. */
  type Record = map<string, Value>

  /** JavaScript truthiness: `undefined`, `null`, `false`, `0` and `""` are falsy. */
  predicate Truthy(v: Value) {
    match v
    case Undefined => false
    case Null => false
    case Bool(b) => b
    case Num(n) => n != 0
    case Str(s) => s != ""
  }

  /** `o.k`: the field's value, or `undefined` when the key is absent. */
  function Get(o: Record, k: string): Value {
    if k in o then o[k] else Undefined
  }

  /** `a || b` */
  function Or(a: Value, b: Value): Value {
    if Truthy(a) then a else b
  }

  /** `{ ...base, ...patch }`: every key of `patch` wins, the rest of `base` stays. */
  function Spread(base: Record, patch: Record): (r: Record)
    ensures r.Keys == base.Keys + patch.Keys
    ensures forall k :: k in patch ==> r[k] == patch[k]
    ensures forall k :: k in base && k !in patch ==> r[k] == base[k]
  {
    base + patch
  }

  /** An optional string is truthy when it is present and not empty. */
  predicate Present(o: Option<string>) {
    o.Some? && o.value != ""
  }

  /** `String(x)` for an id that is a string or `null`. */
  function IdText(o: Option<string>): string {
    match o
    case None => "null"
    case Some(s) => s
  }

  /** `${v}` in a template literal. */
  function ToText(v: Value): string {
    match v
    case Undefined => "undefined"
    case Null => "null"
    case Bool(b) => if b then "true" else "false"
    case Num(n) => if n < 0 then "-" + Text.DecimalText(-n) else Text.DecimalText(n)
    case Str(s) => s
  }
}
