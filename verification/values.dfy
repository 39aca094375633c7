/** The Python objects `json.loads` produces, and the three things the configuration code
    does with them: test truthiness (`if not x`), render them (`str(x)` inside an f-string)
    and look keys up (`d.get(key, default)`). JSON numbers with a fraction or exponent are
    not represented. */
module Values {
  import opened Results
  import opened Text

  datatype Value =
    | Null
    | Bool(b: bool)
    | Int(i: int)
    | Str(s: string)
    | Arr(items: seq<Value>)
    | Obj(fields: map<string, Value>)

  /** Python truthiness: `None`, `False`, `0`, `""`, `[]` and `{}` are false, all else true. */
  predicate Truthy(v: Value) {
    match v
    case Null => false
    case Bool(b) => b
    case Int(i) => i != 0
    case Str(s) => s != ""
    case Arr(items) => |items| > 0
    case Obj(fields) => |fields| > 0
  }

  /** `str(v)` for the scalar values; `None` for a list or dict, whose Python `repr`
      is not modelled. The text of a string is the string itself. */
  function Render(v: Value): (r: Option<string>)
    ensures r.Some? <==> !v.Arr? && !v.Obj?
    ensures v.Str? ==> r == Some(v.s)
    ensures r.Some? && IsDigits(r.value) ==> (v.Str? || (v.Int? && v.i >= 0))
    ensures v.Int? && v.i >= 0 ==> r == Some(NatStr(v.i))
    ensures r.Some? && Truthy(v) ==> r.value != ""
  {
    match v
    case Null => assert !IsAsciiDigit("None"[0]); Some("None")
    case Bool(b) =>
      var t := if b then "True" else "False";
      assert !IsAsciiDigit(t[0]);
      Some(t)
    case Int(i) => Some(IntStr(i))
    case Str(s) => Some(s)
    case Arr(_) => None
    case Obj(_) => None
  }

  /** `fields.get(key, default)`, for a decoded dict and for the parsed query alike. */
  function Get<V>(fields: map<string, V>, key: string, default: V): (r: V)
    ensures key in fields ==> r == fields[key]
    ensures key !in fields ==> r == default
  {
    if key in fields then fields[key] else default
  }
}
