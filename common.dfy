/** Values shared by the image post-processor, the two request handlers and the client page. */
module Common {

  /** One element of a `Buffer` or `Uint8ClampedArray`. */
  newtype byte = x: int | 0 <= x < 256

  datatype Option<+T> = None | Some(value: T)

  /** A JSON value as it arrives after `request.json()` and object destructuring;
      `Undefined` is a property that is absent from the body. */
  datatype JsValue =
    | Undefined
    | Null
    | Bool(b: bool)
    | Number(n: int)
    | Str(s: string)
    | Compound   // an array or an object

  /** JavaScript truthiness of a JSON value (`!v` is its negation).
      Numbers are integers here, so NaN is not represented. */
  predicate Truthy(v: JsValue)
  {
    match v
    case Undefined => false
    case Null => false
    case Bool(b) => b
    case Number(n) => n != 0
    case Str(s) => s != ""
    case Compound => true
  }

  /** `!v || typeof v !== 'string'` fails exactly for a non-empty string: the guard both
      handlers put in front of their string parameter. */
  function NonEmptyString(v: JsValue): (r: Option<string>)
    ensures r.Some? <==> Truthy(v) && v.Str?
    ensures r.Some? ==> v == Str(r.value) && r.value != ""
  {
    if v.Str? && v.s != "" then Some(v.s) else None
  }

  /** Node's `Buffer` base64 conversions, which this model does not implement:
      `encode` is `buf.toString('base64')`, `decode` is `Buffer.from(s, 'base64')`
      (lenient: it never throws). */
  datatype Base64 = Base64(encode: seq<byte> -> string, decode: string -> seq<byte>)
}
