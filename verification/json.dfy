/** The values `json.loads` produces, and the two Python operations the status validator
    applies to a value it has not yet checked: `key in value` and `value[key]`. */
module Json {
  import opened Wrappers
  import Text

  /** A decoded JSON document: None, bool, int, float, str, list, dict. Duplicate keys keep the
      last value, as `json.loads` does, so an object is a map. */
  datatype Value =
    | JNull
    | JBool(b: bool)
    | JInt(i: int)
    | JFloat(f: real)
    | JString(s: string)
    | JArray(items: seq<Value>)
    | JObject(fields: map<string, Value>)

  /** `isinstance(v, int)`: Python's bool is a subclass of int, so true and false pass. */
  predicate IsInt(v: Value) { v.JInt? || v.JBool? }

  /** The integer an `IsInt` value stands for (`True == 1`, `False == 0`). */
  function IntOf(v: Value): int
    requires IsInt(v)
  {
    if v.JInt? then v.i else if v.b then 1 else 0
  }

  /** `key in v` for a string key: dict membership, list element equality, or substring for
      a str; any other value is not iterable and raises TypeError. */
  function Contains(v: Value, key: string): (r: Outcome<bool>)
    ensures r.Failure? <==> !(v.JObject? || v.JArray? || v.JString?)
    ensures r.Failure? ==> r.error == TypeError
    ensures v.JObject? ==> r == Success(key in v.fields)
    ensures v.JArray? ==> r.Success? && (r.value <==> exists i :: 0 <= i < |v.items| && v.items[i] == JString(key))
    ensures v.JString? ==>
      r.Success? && (r.value <==> exists i: nat :: Text.OccursAt(v.s, key, i))
  {
    match v
    case JObject(fields) => Success(key in fields)
    case JArray(items) => Success(JString(key) in items)
    case JString(s) =>
      Text.HasInfixAt(s, key);
      Success(Text.HasInfix(s, key))
    case _ => Failure(TypeError)
  }

  /** `v[key]` with a string key: only a dict with that key answers; a list or str index must
      be an integer, which is a TypeError. */
  function Index(v: Value, key: string): (r: Outcome<Value>)
    requires Contains(v, key) == Success(true)
    ensures r.Success? <==> v.JObject?
    ensures r.Success? ==> r.value == v.fields[key]
    ensures r.Failure? ==> r.error == TypeError
  {
    if v.JObject? then Success(v.fields[key]) else Failure(TypeError)
  }
}
