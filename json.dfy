/** JSON payloads as the Python code sees them after `json.loads`, and the few
    dictionary operations and `isinstance` tests the ETL applies to them. */
module Json {

  datatype Option<+T> = None | Some(value: T)

  /** The Python exceptions the ETL can raise or catch. `ValueError` also
      stands for the `OverflowError` that `datetime.fromtimestamp` can raise. */
  datatype Exc = KeyError | TypeError | ValueError | AttributeError

  /** A Python computation that returns a value or raises. */
  datatype Result<+T> = Ok(value: T) | Raise(exc: Exc)

  /** A decoded JSON value; `JNull` is Python's `None`. */
  datatype Json =
    | JNull
    | JBool(b: bool)
    | JInt(i: int)
    | JReal(r: real)
    | JStr(s: string)
    | JObject(fields: Obj)

  /** A decoded JSON object, i.e. a Python `dict` with string keys. */
  type Obj = map<string, Json>

  /** `d.get(k)`: the value under `k`, or `None` when `k` is absent. */
  function Get(d: Obj, k: string): (v: Json)
    ensures k !in d ==> v == JNull
    ensures k in d ==> v == d[k]
  {
    if k in d then d[k] else JNull
  }

  /** `d.get(k, {})` followed by a `.get` on the result: succeeds with the
      object under `k` (empty when `k` is absent), raises `AttributeError`
      when the value under `k` is not an object (`None` has no `.get`). */
  function GetGroup(d: Obj, k: string): (r: Result<Obj>)
    ensures r.Raise? <==> k in d && !d[k].JObject?
    ensures r.Raise? ==> r.exc == AttributeError
    ensures r.Ok? && k in d ==> JObject(r.value) == d[k]
    ensures r.Ok? && k !in d ==> r.value == map[]
  {
    if k !in d then Ok(map[])
    else match d[k]
      case JObject(m) => Ok(m)
      case _ => Raise(AttributeError)
  }

  /** `d.get(group, {}).get(k)`. */
  function GetIn(d: Obj, group: string, k: string): (r: Result<Json>)
    ensures r.Raise? <==> GetGroup(d, group).Raise?
    ensures r.Ok? ==> r.value == Get(GetGroup(d, group).value, k)
  {
    match GetGroup(d, group)
    case Ok(g) => Ok(Get(g, k))
    case Raise(e) => Raise(e)
  }

  /** `isinstance(v, int)`, which Python also answers true for `bool`. */
  predicate IsInt(v: Json) {
    v.JInt? || v.JBool?
  }

  /** `isinstance(v, (int, float))`. */
  predicate IsNumber(v: Json) {
    v.JInt? || v.JBool? || v.JReal?
  }

  /** The integer a Python `int` (or `bool`) stands for. */
  function IntValue(v: Json): int
    requires IsInt(v)
  {
    match v
    case JInt(i) => i
    case JBool(b) => if b then 1 else 0
  }

  /** The number a Python `int`, `bool` or `float` stands for. */
  function NumValue(v: Json): real
    requires IsNumber(v)
  {
    match v
    case JInt(i) => i as real
    case JBool(b) => if b then 1.0 else 0.0
    case JReal(r) => r
  }
}
