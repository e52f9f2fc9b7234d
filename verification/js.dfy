/** Plain JavaScript values as the editor reads them from models and the
    host graph, with the truthiness rule the handlers branch on. */
module Js {

  datatype Option<+T> = None | Some(value: T) {
    function GetOr(default: T): T {
      match this
      case Some(v) => v
      case None => default
    }
  }

  /** The JavaScript values that reach the modelled code. NaN is not
      representable: numbers are exact reals. */
  datatype Value =
    | Undefined
    | Null
    | Bool(b: bool)
    | Num(n: real)
    | Str(s: string)
    | Arr(items: seq<Value>)

  /** A model object: property name to value. A missing property reads as
      `Undefined`. */
  type Object = map<string, Value>

  /** JavaScript truthiness: `undefined`, `null`, `false`, `0` and `""` are
      falsy; everything else (every array included) is truthy. */
  predicate Truthy(v: Value) {
    match v
    case Undefined => false
    case Null => false
    case Bool(b) => b
    case Num(n) => n != 0.0
    case Str(s) => s != ""
    case Arr(_) => true
  }

  /** Property read `o[key]`. */
  function Get(o: Object, key: string): (v: Value)
    ensures key !in o ==> v == Undefined
    ensures key in o ==> v == o[key]
  {
    if key in o then o[key] else Undefined
  }

  /** `items[i]`: `undefined` past the end. */
  function At(items: seq<Value>, i: nat): (v: Value)
    ensures i < |items| ==> v == items[i]
    ensures i >= |items| ==> v == Undefined
  {
    if i < |items| then items[i] else Undefined
  }

  /** JavaScript's `ToNumber`, as arithmetic such as `v / 2` applies it;
      `None` stands for NaN. A string is converted by `parse`, JavaScript's
      StringToNumber, which is left abstract. An array converts through its
      joined string: the empty array is 0, a one-element array converts as
      its element's string form, and a longer one joins with a comma and is
      NaN. */
  function ToNumber(v: Value, parse: string -> Option<real>): Option<real>
    decreases v, 0
  {
    match v
    case Undefined => None
    case Null => Some(0.0)
    case Bool(b) => Some(if b then 1.0 else 0.0)
    case Num(n) => Some(n)
    case Str(s) => parse(s)
    case Arr(items) =>
      if |items| == 0 then Some(0.0)
      else if |items| == 1 then JoinedNumber(items[0], parse)
      else None
  }

  /** `ToNumber` of one array element's string form inside `join`: `null`
      and `undefined` join as the empty string, which is 0, and booleans as
      "true" or "false", which are NaN. */
  function JoinedNumber(v: Value, parse: string -> Option<real>): Option<real>
    decreases v, 1
  {
    match v
    case Undefined => Some(0.0)
    case Null => Some(0.0)
    case Bool(_) => None
    case Num(n) => Some(n)
    case Str(s) => parse(s)
    case Arr(_) => ToNumber(v, parse)
  }

  /** Object spread `{...base, ...over}`: every property of `over` wins. */
  function Spread(base: Object, over: Object): (r: Object)
    ensures r.Keys == base.Keys + over.Keys
    ensures forall k :: k in over ==> r[k] == over[k]
    ensures forall k :: k in base && k !in over ==> r[k] == base[k]
  {
    base + over
  }
}
