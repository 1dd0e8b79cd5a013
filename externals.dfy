/**
 * Values and library calls the HTTP substrate uses but does not implement:
 * JSON values, and the codec functions of Python's `json`, `urllib.parse`
 * and `bytes.decode`. The functions are parameters of the model, so every
 * property proved here holds for any behaviour of those libraries.
 */
module Externals {
  import opened Wrappers
  import opened Strings

  /** A decoded JSON document (`json.loads` result / `json.dumps` argument). */
  datatype JsonValue =
    | JNull
    | JBool(b: bool)
    | JNumber(n: real)
    | JString(s: string)
    | JArray(items: seq<JsonValue>)
    | JObject(fields: map<string, JsonValue>)

  /** Python truthiness of a decoded JSON value (`bool(value)`). */
  predicate Truthy(v: JsonValue) {
    match v
    case JNull => false
    case JBool(b) => b
    case JNumber(n) => n != 0.0
    case JString(s) => s != []
    case JArray(items) => items != []
    case JObject(fields) => fields != map[]
  }

  /** The library functions the request decoder and the JSON response helper call. */
  datatype Lib = Lib(
    /** `raw.decode("utf-8", errors="ignore")`. */
    decodeLenient: Bytes -> string,
    /** `raw.decode("utf-8")`; `None` when it raises `UnicodeDecodeError`. */
    decodeStrict: Bytes -> Option<string>,
    /** `urllib.parse.unquote`. */
    unquote: string -> string,
    /** `urllib.parse.parse_qsl` with its default arguments: the decoded pairs in order. */
    parseQsl: string -> seq<(string, string)>,
    /** `json.loads`; `None` when it raises `JSONDecodeError`. */
    jsonLoads: string -> Option<JsonValue>,
    /** `json.dumps(payload, ensure_ascii=False)`. */
    jsonDumps: JsonValue -> string
  )
}
