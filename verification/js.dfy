/** The JavaScript values the model needs for `unknown` inputs: request
    bodies, decoded token payloads, environment values and thrown values.
    Numbers are restricted to integers. */
module Js {
  import opened Text

  datatype JsValue =
    | Undefined
    | Null
    | Bool(b: bool)
    | Num(n: int)
    | Str(s: string)
    | Obj(fields: map<string, JsValue>)

  /** JavaScript truthiness: `!!v`. */
  predicate Truthy(v: JsValue) {
    match v
    case Undefined => false
    case Null => false
    case Bool(b) => b
    case Num(n) => n != 0
    case Str(s) => s != ""
    case Obj(_) => true
  }

  /** `v?.key`: the property of an object, `undefined` for a missing key or a non-object. */
  function Field(v: JsValue, key: string): JsValue {
    if v.Obj? && key in v.fields then v.fields[key] else Undefined
  }

  /** The least magnitude `String` writes in exponent form: 10^21. */
  const ExponentFrom: nat := 1_000_000_000_000_000_000_000

  /** The digits of `s` without its trailing zeros; the first digit stays. */
  function Significant(s: string): (r: string)
    requires |s| >= 1
    ensures 1 <= |r| <= |s| && r == s[..|r|]
    decreases |s|
  {
    if |s| > 1 && s[|s| - 1] == '0' then Significant(s[..|s| - 1]) else s
  }

  /** The exponent form of a natural number: its significant digits with a
      point after the first one (no point when there is only one), then `e+`
      and the power of ten of the first digit, as in `1e+21` or `1.5e+22`. */
  function ExponentForm(n: nat): (s: string)
    ensures |s| >= 4 && IsDigit(s[0]) && IsDigit(s[|s| - 1])
    ensures s[1] == '.' || s[1] == 'e'
  {
    var digits := Decimal(n);
    var sig := Significant(digits);
    var exponent := Decimal(|digits| - 1);
    [sig[0]] + (if |sig| > 1 then "." + sig[1..] else "") + "e+" + exponent
  }

  /** `String(n)` for an integer: plain decimal below 10^21 in magnitude,
      exponent form from there on, with a minus sign in front of a negative.
      Every digit of the integer is kept; above 2^53 JavaScript would print
      only the digits that identify the nearest double. */
  function NumberToString(n: int): string {
    var m := if n < 0 then -n else n;
    (if n < 0 then "-" else "") + (if m < ExponentFrom then Decimal(m) else ExponentForm(m))
  }

  /** `${v}` inside a template literal. */
  function Render(v: JsValue): string {
    match v
    case Undefined => "undefined"
    case Null => "null"
    case Bool(b) => if b then "true" else "false"
    case Num(n) => NumberToString(n)
    case Str(s) => s
    case Obj(_) => "[object Object]"
  }
}
