/**
 * Decoded JSON / YAML documents as the Python code sees them after
 * `json.load` or `yaml.safe_load`, with the few dict and truthiness rules
 * the modelled code depends on.
 */
module Json {
  import opened Base

  datatype JValue =
    | JNull
    | JBool(b: bool)
    | JNum(n: real)
    | JStr(s: string)
    | JArr(items: seq<JValue>)
    | JObj(fields: map<string, JValue>)

  /** Python truthiness: `None`, `False`, `0`, and empty strings, lists and
      dicts are false. */
  predicate Truthy(v: JValue)
  {
    match v
    case JNull => false
    case JBool(b) => b
    case JNum(n) => n != 0.0
    case JStr(s) => s != []
    case JArr(a) => a != []
    case JObj(m) => m != map[]
  }

  /** `d.get(key, default)` on a dict. */
  function Get(m: map<string, JValue>, key: string, default: JValue): (r: JValue)
    ensures key in m ==> r == m[key]
    ensures key !in m ==> r == default
  {
    if key in m then m[key] else default
  }

  /** The items `for item in v` meets when each item then has `.get`
      called on it: a list gives its elements; an empty dict or string gives
      none; a non-empty dict or string gives a string first, whose `.get`
      raises AttributeError; any other value is not iterable (TypeError). */
  function Iterated(v: JValue): (r: Result<seq<JValue>>)
    ensures v.JArr? ==> r == Ok(v.items)
    ensures r.Ok? ==> v.JArr? || v == JObj(map[]) || v == JStr([])
  {
    match v
    case JArr(a) => Ok(a)
    case JObj(m) => if m == map[] then Ok([]) else Err(AttributeError)
    case JStr(s) => if s == [] then Ok([]) else Err(AttributeError)
    case _ => Err(TypeError)
  }

  /** The same loop when every item must be a dict: a non-dict item has no
      `.get` (AttributeError). */
  function DictItems(v: JValue): (r: Result<seq<map<string, JValue>>>)
    ensures r.Ok? && v.JArr? ==> |r.value| == |v.items|
    ensures r.Ok? && v.JArr? ==> forall i :: 0 <= i < |v.items| ==> v.items[i] == JObj(r.value[i])
    ensures r.Ok? ==> v.JArr? || v == JObj(map[]) || v == JStr([])
    ensures v.JArr? && (forall i :: 0 <= i < |v.items| ==> v.items[i].JObj?) ==> r.Ok?
  {
    match Iterated(v)
    case Err(e) => Err(e)
    case Ok(a) => ObjectsOf(a)
  }

  function ObjectsOf(a: seq<JValue>): (r: Result<seq<map<string, JValue>>>)
    ensures r.Ok? ==> |r.value| == |a| && forall i :: 0 <= i < |a| ==> a[i] == JObj(r.value[i])
    ensures (forall i :: 0 <= i < |a| ==> a[i].JObj?) ==> r.Ok?
  {
    if a == [] then Ok([])
    else if !a[0].JObj? then Err(AttributeError)
    else
      match ObjectsOf(a[1..])
      case Err(e) => Err(e)
      case Ok(rest) => Ok([a[0].fields] + rest)
  }
}
