/**
 * JSON scalar values as they travel in request and response bodies, with the
 * two runtimes' notions of truthiness and of converting a value to a string.
 */
module Json {
  import opened Common
  import opened Text

  /** A JSON scalar: null, true/false, an integer or a string. */
  datatype Value = Null | Bool(b: bool) | Int(i: int) | Str(s: string)

  /**
   * Truthiness, which Python (`not v`) and JavaScript (`!v`) agree on for
   * these values: null, false, 0 and the empty string are falsy.
   */
  predicate Truthy(v: Value) {
    match v
    case Null => false
    case Bool(b) => b
    case Int(i) => i != 0
    case Str(s) => s != []
  }

  /** Python's str(v) for the value json.loads produced. */
  function PyStr(v: Value): string {
    match v
    case Null => "None"
    case Bool(b) => if b then "True" else "False"
    case Int(i) => IntToString(i)
    case Str(s) => s
  }

  /** JavaScript's String(v); an absent property reads as `undefined`. */
  function JsString(v: Option<Value>): string {
    match v
    case None => "undefined"
    case Some(Null) => "null"
    case Some(Bool(b)) => if b then "true" else "false"
    case Some(Int(i)) => IntToString(i)
    case Some(Str(s)) => s
  }

  /** The string held under a key, or None when the key is absent or holds another kind of value. */
  function TextField(data: map<string, Value>, key: string): (r: Option<string>)
    ensures r.Some? <==> key in data && data[key].Str?
    ensures r.Some? ==> data[key] == Str(r.value)
  {
    if key in data && data[key].Str? then Some(data[key].s) else None
  }

  /**
   * Python's data.get(key, default) where a string is needed: the default when
   * the key is absent, None when the key holds something other than a string.
   */
  function OptionalText(data: map<string, Value>, key: string, default: string): (r: Option<string>)
    ensures key !in data ==> r == Some(default)
    ensures key in data ==> r == TextField(data, key)
  {
    if key !in data then Some(default) else TextField(data, key)
  }
}
