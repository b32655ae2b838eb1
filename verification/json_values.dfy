/**
 * Values produced by `json.loads`, and the few Python operations the tools
 * apply to them: `dict.get`, truthiness and `str()` of scalars.
 */
module JsonValues {
  import opened Wrappers
  import opened Text

  /**
   * A decoded JSON value. A float carries what Python derives from it:
   * its `str()` rendering, its `int()` truncation and whether it is non-zero.
   * Object keys are always strings in JSON.
   */
  datatype Json =
    | JNull
    | JBool(b: bool)
    | JInt(i: int)
    | JFloat(repr: string, truncated: int, nonZero: bool)
    | JString(s: string)
    | JArray(items: seq<Json>)
    | JObject(fields: map<string, Json>)

  /** `data.get(key)`: an absent key and an explicit `null` both read as `None`. */
  function Get(fields: map<string, Json>, key: string): (r: Json)
    ensures key !in fields ==> r == JNull
    ensures key in fields ==> r == fields[key]
  {
    if key in fields then fields[key] else JNull
  }

  /** Python truthiness of a decoded value. */
  predicate Truthy(j: Json) {
    match j
    case JNull => false
    case JBool(b) => b
    case JInt(i) => i != 0
    case JFloat(_, _, nonZero) => nonZero
    case JString(s) => s != ""
    case JArray(items) => items != []
    case JObject(fields) => fields != map[]
  }

  /** The values `isinstance(value, (str, int, float, bool))` accepts. */
  predicate IsScalar(j: Json) {
    j.JString? || j.JInt? || j.JFloat? || j.JBool?
  }

  /** `str(value)` of a scalar. */
  function ScalarStr(j: Json): string
    requires IsScalar(j)
  {
    match j
    case JString(s) => s
    case JInt(i) => IntToString(i)
    case JFloat(repr, _, _) => repr
    case JBool(b) => if b then "True" else "False"
  }

  /**
   * `str(value)` of any decoded value: `None` for null, the scalar rendering
   * for scalars, and `render` (Python's container repr) for lists and dicts.
   */
  function PyStr(j: Json, render: Json -> string): (r: string)
    ensures IsScalar(j) ==> r == ScalarStr(j)
    ensures j.JNull? ==> r == "None"
  {
    if j.JNull? then "None" else if IsScalar(j) then ScalarStr(j) else render(j)
  }

  /**
   * `int(value)`: ints and bools as they are, floats truncated toward zero,
   * strings through `int()` on text; `None` where Python raises.
   */
  function PyInt(j: Json): (r: Option<int>)
    ensures j.JInt? ==> r == Some(j.i)
    ensures j.JString? ==> r == ParseInt(j.s)
    ensures j.JFloat? ==> r == Some(j.truncated)
    ensures j.JNull? || j.JArray? || j.JObject? ==> r.None?
  {
    match j
    case JInt(i) => Some(i)
    case JBool(b) => Some(if b then 1 else 0)
    case JFloat(_, t, _) => Some(t)
    case JString(s) => ParseInt(s)
    case _ => None
  }
}
