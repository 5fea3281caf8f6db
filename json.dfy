/**
 * The JSON values the storage service and the model backend hand around:
 * what `json.load` produces (floating-point numbers aside), with Python's
 * truthiness, `dict.get` with a default, `len`, and the `str` conversion an
 * f-string applies.
 */
module Json {
  import opened Wrappers

  datatype Value =
    | Null
    | Bool(b: bool)
    | Int(i: int)
    | Str(s: string)
    | Arr(items: seq<Value>)
    | Obj(fields: map<string, Value>)

  /** Python's truth value: `None`, `False`, `0` and empty strings, lists and dicts are false. */
  predicate Truthy(v: Value)
    ensures v.Null? ==> !Truthy(v)
    ensures Len(v).Some? ==> (Truthy(v) <==> Len(v).value != 0)
  {
    match v
    case Null => false
    case Bool(b) => b
    case Int(i) => i != 0
    case Str(s) => |s| != 0
    case Arr(items) => |items| != 0
    case Obj(fields) => |fields| != 0
  }

  /** `d.get(key, default)`. */
  function Get(fields: map<string, Value>, key: string, default: Value): (r: Value)
    ensures key in fields ==> r == fields[key]
    ensures key !in fields ==> r == default
  {
    if key in fields then fields[key] else default
  }

  /** `len(v)`: defined for strings, lists and dicts; `None` stands for the `TypeError` of the others. */
  function Len(v: Value): (r: Option<nat>)
    ensures r.Some? <==> (v.Str? || v.Arr? || v.Obj?)
    ensures v.Str? ==> r == Some(|v.s|)
    ensures v.Arr? ==> r == Some(|v.items|)
    ensures v.Obj? ==> r == Some(|v.fields|)
  {
    match v
    case Str(s) => Some(|s|)
    case Arr(items) => Some(|items|)
    case Obj(fields) => Some(|fields|)
    case _ => None
  }

  /** The decimal digits of `n`, most significant first. */
  function NatToDecimal(n: nat): (r: string)
    ensures |r| != 0
    ensures forall k :: 0 <= k < |r| ==> '0' <= r[k] <= '9'
    decreases n
  {
    var d := ('0' as int + n % 10) as char;
    if n < 10 then [d] else NatToDecimal(n / 10) + [d]
  }

  /**
   * `str(v)` as an f-string applies it: `None`, `True`, `False`, decimal
   * integers and strings as they are. Lists and dictionaries are rendered as
   * the fixed text "[...]" and "{...}", not as Python's `repr`.
   */
  function PyStr(v: Value): (r: string)
    ensures v.Str? ==> r == v.s
  {
    match v
    case Null => "None"
    case Bool(b) => if b then "True" else "False"
    case Int(i) => if i < 0 then "-" + NatToDecimal(-i) else NatToDecimal(i)
    case Str(s) => s
    case Arr(_) => "[...]"
    case Obj(_) => "{...}"
  }
}
