/**
 * The org.json values the core reads and writes, and the accessors it uses:
 * `get*` throw a JSONException (here `Err`) when the key is absent or the
 * value has the wrong type, `opt*` fall back to a default, and `has` is key
 * membership.
 */
module Json {
  import opened Wrappers
  import Text

  datatype Value =
    | JNull
    | JBool(b: bool)
    | JNum(n: int)
    | JStr(s: string)
    | JArr(items: seq<Value>)
    | JObj(fields: map<string, Value>)

  type Object = map<string, Value>

  /** Why an accessor threw a JSONException. */
  datatype JsonError = MissingKey(key: string) | WrongType(key: string)

  /** `Number.intValue()`: the low 32 bits of `n` as a signed value. */
  function WrapInt(n: int): (r: int)
    ensures Text.INT_MIN <= r <= Text.INT_MAX
    ensures (r - n) % 0x1_0000_0000 == 0
  {
    (n - Text.INT_MIN) % 0x1_0000_0000 + Text.INT_MIN
  }

  /** `Number.longValue()`: the low 64 bits of `n` as a signed value. */
  function WrapLong(n: int): (r: int)
    ensures Text.LONG_MIN <= r <= Text.LONG_MAX
    ensures (r - n) % 0x1_0000_0000_0000_0000 == 0
  {
    (n - Text.LONG_MIN) % 0x1_0000_0000_0000_0000 + Text.LONG_MIN
  }

  lemma WrapIntInRange(n: int)
    requires Text.INT_MIN <= n <= Text.INT_MAX
    ensures WrapInt(n) == n
  {
  }

  lemma WrapLongInRange(n: int)
    requires Text.LONG_MIN <= n <= Text.LONG_MAX
    ensures WrapLong(n) == n
  {
  }

  /**
   * `Object.toString()` of a value as `optString` returns it. Strings
   * inside arrays are quoted without escaping, and a nested object is shown
   * as a placeholder: its text is not part of this model.
   */
  function Render(v: Value): string
  {
    match v
    case JNull => "null"
    case JBool(b) => if b then "true" else "false"
    case JNum(n) => Text.IntToString(n)
    case JStr(s) => s
    case JArr(items) => "[" + RenderItems(items) + "]"
    case JObj(_) => "{...}"
  }

  function RenderItems(items: seq<Value>): string
  {
    if |items| == 0 then ""
    else
      var first := match items[0] case JStr(s) => "\"" + s + "\"" case _ => Render(items[0]);
      if |items| == 1 then first else first + "," + RenderItems(items[1..])
  }

  /** `o.getString(k)`: the string stored under `k`; absent keys and non-string values throw. */
  function GetString(o: Object, k: string): (r: Result<string, JsonError>)
    ensures r.Ok? <==> k in o && o[k].JStr?
    ensures r.Ok? ==> o[k] == JStr(r.value)
  {
    if k !in o then Err(MissingKey(k))
    else match o[k]
      case JStr(s) => Ok(s)
      case _ => Err(WrongType(k))
  }

  /** `o.optString(k, null)`: `None` when `k` is absent or JSON null, otherwise the value's `toString()`. */
  function OptString(o: Object, k: string): (r: Option<string>)
    ensures r.None? <==> k !in o || o[k] == JNull
    ensures k in o && o[k].JStr? ==> r == Some(o[k].s)
  {
    if k !in o || o[k] == JNull then None else Some(Render(o[k]))
  }

  /** `o.getInt(k)`: a number truncated to 32 bits, or a string parsed as an int. */
  function GetInt(o: Object, k: string): (r: Result<int, JsonError>)
    ensures r.Ok? ==> Text.INT_MIN <= r.value <= Text.INT_MAX
    ensures k !in o ==> r.Err?
    ensures k in o && o[k].JNum? && Text.INT_MIN <= o[k].n <= Text.INT_MAX ==> r == Ok(o[k].n)
  {
    if k !in o then Err(MissingKey(k))
    else match o[k]
      case JNum(n) => Ok(WrapInt(n))
      case JStr(s) => (match Text.ParseInt(s) case Some(n) => Ok(n) case None => Err(WrongType(k)))
      case _ => Err(WrongType(k))
  }

  /** `o.getLong(k)`: a number truncated to 64 bits, or a string parsed as a long. */
  function GetLong(o: Object, k: string): (r: Result<int, JsonError>)
    ensures r.Ok? ==> Text.LONG_MIN <= r.value <= Text.LONG_MAX
    ensures k !in o ==> r.Err?
    ensures k in o && o[k].JNum? && Text.LONG_MIN <= o[k].n <= Text.LONG_MAX ==> r == Ok(o[k].n)
  {
    if k !in o then Err(MissingKey(k))
    else match o[k]
      case JNum(n) => Ok(WrapLong(n))
      case JStr(s) => (match Text.ParseLong(s) case Some(n) => Ok(n) case None => Err(WrongType(k)))
      case _ => Err(WrongType(k))
  }

  /** `o.getJSONArray(k)`. */
  function GetArray(o: Object, k: string): (r: Result<seq<Value>, JsonError>)
    ensures r.Ok? <==> k in o && o[k].JArr?
    ensures r.Ok? ==> o[k] == JArr(r.value)
  {
    if k !in o then Err(MissingKey(k))
    else match o[k]
      case JArr(items) => Ok(items)
      case _ => Err(WrongType(k))
  }

  /** A list of strings as `put` stores a `Collection<String>`. */
  function StringArray(xs: seq<string>): (r: Value)
    ensures r.JArr? && |r.items| == |xs|
    ensures forall i :: 0 <= i < |xs| ==> r.items[i] == JStr(xs[i])
  {
    JArr(seq(|xs|, i requires 0 <= i < |xs| => JStr(xs[i])))
  }

  /** Reading an array element by element with `getString`; a non-string element throws. */
  function ArrayStrings(items: seq<Value>): (r: Option<seq<string>>)
    ensures r.Some? <==> forall i :: 0 <= i < |items| ==> items[i].JStr?
    ensures r.Some? ==> |r.value| == |items| && forall i :: 0 <= i < |items| ==> items[i] == JStr(r.value[i])
  {
    if |items| == 0 then Some([])
    else match items[0]
      case JStr(s) =>
        (match ArrayStrings(items[1..])
          case Some(rest) => Some([s] + rest)
          case None => None)
      case _ => None
  }

  lemma {:induction false} ArrayStringsRoundTrip(xs: seq<string>)
    ensures ArrayStrings(StringArray(xs).items) == Some(xs)
  {
    var r := ArrayStrings(StringArray(xs).items);
    assert r.value == xs;
  }
}
