/** Decoded JSON values, as `json.load` hands them to Python, with Python's
    truth test and `dict.get`. Key order inside an object is not modelled. */
module Json {

  datatype Value =
    | Null
    | Bool(b: bool)
    | Num(n: real)
    | Str(s: string)
    | Arr(items: seq<Value>)
    | Obj(fields: map<string, Value>)

  /** Python's `bool(v)`: `None`, `False`, zero and empty containers are false. */
  predicate Truthy(v: Value) {
    match v
    case Null => false
    case Bool(b) => b
    case Num(n) => n != 0.0
    case Str(s) => s != []
    case Arr(items) => items != []
    case Obj(fields) => fields != map[]
  }

  /** `m.get(key, default)`: the stored value whenever the key is present,
      however falsy it is. */
  function Get(m: map<string, Value>, key: string, default: Value): (v: Value)
    ensures key in m ==> v == m[key]
    ensures key !in m ==> v == default
  {
    if key in m then m[key] else default
  }

  /** A list of strings as a JSON array. */
  function StrArr(xs: seq<string>): (v: Value)
    ensures v.Arr? && |v.items| == |xs|
    ensures forall k :: 0 <= k < |xs| ==> v.items[k] == Str(xs[k])
  {
    Arr(seq(|xs|, k requires 0 <= k < |xs| => Str(xs[k])))
  }

  /** The strings of an array that holds only strings. */
  function Strings(v: Value): (r: seq<string>)
    requires v.Arr? && forall k :: 0 <= k < |v.items| ==> v.items[k].Str?
    ensures |r| == |v.items|
    ensures forall k :: 0 <= k < |r| ==> v.items[k] == Str(r[k])
  {
    seq(|v.items|, k requires 0 <= k < |v.items| => v.items[k].s)
  }

  /** Reading an encoded list of strings gives the list back. */
  lemma StrArrRoundTrip(xs: seq<string>)
    ensures Strings(StrArr(xs)) == xs
  {
  }
}
