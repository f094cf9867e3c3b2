/** JSON values as `r.json()` returns them, and the few Python operators that
    app1.py applies to them. Each operator returns `None` exactly when Python
    raises (TypeError, KeyError, IndexError or AttributeError). */
module JsonValue {
  import opened Options

  /** A decoded JSON document: None, bool, int, float, str, list or dict. */
  datatype Json =
    | JNull
    | JBool(b: bool)
    | JInt(i: int)
    | JReal(r: real)
    | JString(s: string)
    | JArray(items: seq<Json>)
    | JObject(fields: map<string, Json>)

  /** `sub` occurs in `s` as a contiguous run (Python's `sub in s` on two str). */
  predicate IsSubstring(sub: string, s: string)
    decreases |s|
  {
    sub <= s || (|s| > 0 && IsSubstring(sub, s[1..]))
  }

  /** `item in container` for a str item: key test on a dict, element test on a
      list, substring test on a str; any other operand raises TypeError. */
  function Contains(container: Json, item: string): (r: Option<bool>)
    ensures r.None? <==> !(container.JObject? || container.JArray? || container.JString?)
    ensures container.JObject? ==> r == Some(item in container.fields)
  {
    match container
    case JObject(m) => Some(item in m)
    case JArray(xs) => Some(JString(item) in xs)
    case JString(s) => Some(IsSubstring(item, s))
    case _ => None
  }

  /** `container[key]` for a str key: only a dict holding the key answers; a
      missing key raises KeyError, a list or str raises TypeError. */
  function GetItem(container: Json, key: string): (r: Option<Json>)
    ensures r.Some? <==> container.JObject? && key in container.fields
    ensures r.Some? ==> r.value == container.fields[key]
  {
    match container
    case JObject(m) => if key in m then Some(m[key]) else None
    case _ => None
  }

  /** `container[0]`: the first element of a non-empty list, the first
      character of a non-empty str; IndexError on empty ones, KeyError on a dict
      (JSON object keys are strings), TypeError on everything else. */
  function IndexZero(container: Json): (r: Option<Json>)
    ensures container.JArray? && |container.items| > 0 ==> r == Some(container.items[0])
    ensures r.Some? ==> (container.JArray? || container.JString?)
  {
    match container
    case JArray(xs) => if |xs| > 0 then Some(xs[0]) else None
    case JString(s) => if |s| > 0 then Some(JString([s[0]])) else None
    case _ => None
  }

  /** `len(v)`: defined for str, list and dict only. */
  function Len(v: Json): (r: Option<nat>)
    ensures r.Some? <==> (v.JString? || v.JArray? || v.JObject?)
    ensures v.JArray? ==> r == Some(|v.items|)
  {
    match v
    case JString(s) => Some(|s|)
    case JArray(xs) => Some(|xs|)
    case JObject(m) => Some(|m|)
    case _ => None
  }

  /** `v.get(key, default)`: only a dict has `get`; a present key yields its
      value, even when that value is null. */
  function DictGet(v: Json, key: string, default: Json): (r: Option<Json>)
    ensures r.Some? <==> v.JObject?
    ensures v.JObject? && key in v.fields ==> r == Some(v.fields[key])
    ensures v.JObject? && key !in v.fields ==> r == Some(default)
  {
    match v
    case JObject(m) => Some(if key in m then m[key] else default)
    case _ => None
  }

  /** Python's `v == 1`: true for the int 1, for True and for the float 1.0. */
  predicate EqualsOne(v: Json)
    ensures EqualsOne(v) <==> v == JInt(1) || v == JBool(true) || v == JReal(1.0)
  {
    match v
    case JBool(b) => b
    case JInt(i) => i == 1
    case JReal(r) => r == 1.0
    case _ => false
  }
}
