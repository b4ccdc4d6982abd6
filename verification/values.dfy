/** JavaScript values as far as the reactive core distinguishes them. Numbers are integers;
    objects are references into a heap, so `===` is equality of this datatype. */
module Values {

  type Addr = nat

  datatype Value =
    | Undefined
    | Null
    | Bool(b: bool)
    | Num(n: int)
    | Str(s: string)
    | Ref(addr: Addr)

  /** ToBoolean: what `!value` and `if (value)` test. */
  predicate Truthy(v: Value) {
    match v
    case Undefined => false
    case Null => false
    case Bool(b) => b
    case Num(n) => n != 0
    case Str(s) => s != ""
    case Ref(_) => true
  }

  /** `!value || typeof value !== 'object'` is false exactly for objects: `null` is an
      object but falsy, and every other primitive has a different `typeof`. */
  predicate IsObservable(v: Value) {
    Truthy(v) && v.Ref?
  }

  /** Decimal digits of a natural number, most significant first. */
  function Digits(n: nat): (r: string)
    ensures |r| >= 1
    ensures forall i :: 0 <= i < |r| ==> '0' <= r[i] <= '9'
  {
    var d := ['0' + (n % 10) as char];
    if n < 10 then d else Digits(n / 10) + d
  }

  /** `String(v)` for plain values and plain objects. */
  function JsString(v: Value): string {
    match v
    case Undefined => "undefined"
    case Null => "null"
    case Bool(b) => if b then "true" else "false"
    case Num(n) => if n < 0 then "-" + Digits(-n) else Digits(n)
    case Str(s) => s
    case Ref(_) => "[object Object]"
  }

  /** What a DOM string attribute declared nullable-to-empty (`textContent`, `innerHTML`,
      an input's `value`) holds after being assigned `v`. */
  function DomString(v: Value): string {
    if v.Null? then "" else JsString(v)
  }
}
