/**
 * The plain dictionaries that `to_dict` produces and `from_dict` consumes.
 * A value is JSON-shaped; the readers below mirror `data[key]` (a missing key
 * raises) and `data.get(key, default)` (a missing key gives the default).
 * A present value of the wrong type is rejected (`None`).
 */
module Records {
  import opened Wrappers

  datatype Value =
    | Null
    | Bool(b: bool)
    | Int(i: int)
    | Str(s: string)
    | List(items: seq<Value>)
    | Dict(fields: map<string, Value>)

  /** Python truthiness of a value. */
  predicate Truthy(v: Value) {
    match v
    case Null => false
    case Bool(b) => b
    case Int(i) => i != 0
    case Str(s) => s != []
    case List(xs) => xs != []
    case Dict(m) => m != map[]
  }

  /** `data[key]` for a string field. */
  function RequiredStr(d: map<string, Value>, key: string): Option<string> {
    if key in d && d[key].Str? then Some(d[key].s) else None
  }

  /** `data[key]` for an integer field. */
  function RequiredInt(d: map<string, Value>, key: string): Option<int> {
    if key in d && d[key].Int? then Some(d[key].i) else None
  }

  /** `data.get(key, default)` for a string field. */
  function StrOr(d: map<string, Value>, key: string, default: string): Option<string> {
    if key !in d then Some(default) else if d[key].Str? then Some(d[key].s) else None
  }

  /** `data.get(key, default)` for an integer field. */
  function IntOr(d: map<string, Value>, key: string, default: int): Option<int> {
    if key !in d then Some(default) else if d[key].Int? then Some(d[key].i) else None
  }

  /** `data.get(key, default)` for a boolean field. */
  function BoolOr(d: map<string, Value>, key: string, default: bool): Option<bool> {
    if key !in d then Some(default) else if d[key].Bool? then Some(d[key].b) else None
  }

  /** `data.get(key)` for a nullable string: absent and null both read as None. */
  function NullableStr(d: map<string, Value>, key: string): Option<Option<string>> {
    if key !in d || d[key].Null? then Some(None)
    else if d[key].Str? then Some(Some(d[key].s))
    else None
  }

  /** `data.get(key)` for a nullable integer: absent and null both read as None. */
  function NullableInt(d: map<string, Value>, key: string): Option<Option<int>> {
    if key !in d || d[key].Null? then Some(None)
    else if d[key].Int? then Some(Some(d[key].i))
    else None
  }

  function StrValue(s: Option<string>): Value {
    match s
    case Some(x) => Str(x)
    case None => Null
  }

  function IntValue(n: Option<int>): Value {
    match n
    case Some(x) => Int(x)
    case None => Null
  }

  /** A list of strings as a value. */
  function StrListValue(xs: seq<string>): (v: Value)
    ensures v.List? && |v.items| == |xs|
  {
    List(seq(|xs|, i requires 0 <= i < |xs| => Str(xs[i])))
  }

  /** A value read back as a list of strings; anything else is rejected. */
  function StrList(v: Value): Option<seq<string>> {
    if v.List? && forall i :: 0 <= i < |v.items| ==> v.items[i].Str?
    then Some(seq(|v.items|, i requires 0 <= i < |v.items| => v.items[i].s))
    else None
  }

  lemma StrListRoundTrip(xs: seq<string>)
    ensures StrList(StrListValue(xs)) == Some(xs)
  {
    var v := StrListValue(xs);
    assert forall i :: 0 <= i < |v.items| ==> v.items[i] == Str(xs[i]);
    var back := seq(|v.items|, i requires 0 <= i < |v.items| => v.items[i].s);
    assert back == xs;
  }

  /** `data.get(key, default)` for a list of strings. */
  function StrListOr(d: map<string, Value>, key: string, default: seq<string>): Option<seq<string>> {
    if key !in d then Some(default) else StrList(d[key])
  }
}
