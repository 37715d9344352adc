/**
 * The JavaScript values that the school office stores in its records, and the
 * two JavaScript conversions the server relies on: truthiness (what `a || b`
 * tests) and string conversion (what a template literal `${v}` produces).
 *
 * A record is a flat JSON object: a map from field name to value. A field that
 * is not in the map reads as `undefined`.
 */
module JsValues {

  datatype Option<T> = None | Some(value: T)

  /** A JSON value as stored in data/students.json and data/faculties.json. */
  datatype JsValue = JNull | JBool(b: bool) | JNum(n: int) | JStr(s: string)

  /** A student or faculty record; an absent key is `undefined`. */
  type Record = map<string, JsValue>

  /** A parsed request body (form fields or JSON payload), field name to text. */
  type FormBody = map<string, string>

  /** JavaScript truthiness: `null`, `false`, `0` and `""` are falsy. */
  predicate Truthy(v: JsValue)
  {
    match v
    case JNull => false
    case JBool(b) => b
    case JNum(n) => n != 0
    case JStr(s) => s != ""
  }

  /** The value of `r.f`, `None` standing for `undefined`. */
  function Get(r: Record, f: string): (v: Option<JsValue>)
    ensures v.Some? <==> f in r
    ensures f in r ==> v.value == r[f]
  {
    if f in r then Some(r[f]) else None
  }

  /** Truthiness of `r.f`: an absent field is `undefined`, which is falsy. */
  predicate FieldTruthy(r: Record, f: string)
  {
    f in r && Truthy(r[f])
  }

  /** `req.body.k`: the submitted text, or `undefined` when the field is missing. */
  function BodyField(body: FormBody, k: string): (v: Option<JsValue>)
    ensures v.Some? <==> k in body
    ensures k in body ==> v.value == JStr(body[k])
  {
    if k in body then Some(JStr(body[k])) else None
  }

  function DigitChar(d: nat): (c: char)
    requires d < 10
    ensures '0' <= c <= '9'
    ensures c as int - '0' as int == d
  {
    ('0' as int + d) as char
  }

  /** Decimal digits of a non-negative integer, without leading zeros. */
  function Decimal(n: nat): (s: string)
    ensures s != []
    ensures forall i :: 0 <= i < |s| ==> '0' <= s[i] <= '9'
    ensures s[0] == '0' ==> n == 0
  {
    if n < 10 then [DigitChar(n)] else Decimal(n / 10) + [DigitChar(n % 10)]
  }

  /** `String(n)` for an integral Number. */
  function NumberToString(n: int): (s: string)
    ensures s != []
    ensures s[0] == '-' <==> n < 0
  {
    if n < 0 then "-" + Decimal(-n) else Decimal(n)
  }

  /** What `${v}` inserts into a template literal. */
  function Display(v: Option<JsValue>): (s: string)
    ensures v.Some? && v.value.JStr? ==> s == v.value.s
    ensures v.None? ==> s == "undefined"
  {
    match v
    case None => "undefined"
    case Some(JNull) => "null"
    case Some(JBool(b)) => if b then "true" else "false"
    case Some(JNum(n)) => NumberToString(n)
    case Some(JStr(s)) => s
  }
}
