/**
  The dynamically typed Python values that flow through the response parser:
  what an agent result, a decoded JSON fragment or an intermediate step can be,
  Python's truth test on them, and the exceptions the parser and the view can raise.
 */
module Python {

  /** A Python value, as far as the parser can tell them apart. `List` stands
      for both lists and tuples (they iterate and unpack alike). Dictionary keys
      are strings, as in decoded JSON; the insertion order of a dict is not kept.
      `Other` is an object of any other class (for instance an agent-framework
      record), which is not iterable; `truthy` is what `bool()` gives for it. */
  datatype Value =
    | NoneV
    | Bool(b: bool)
    | Int(i: int)
    | Str(s: string)
    | Dict(entries: map<string, Value>)
    | List(items: seq<Value>)
    | Other(truthy: bool)

  /** Python's truth test: `None`, `False`, `0`, `""`, `{}` and `[]` are falsy. */
  predicate Truthy(v: Value)
  {
    match v
    case NoneV => false
    case Bool(b) => b
    case Int(i) => i != 0
    case Str(s) => s != ""
    case Dict(m) => m != map[]
    case List(xs) => xs != []
    case Other(t) => t
  }

  /** `d.get(key, default)`. */
  function GetOr(d: map<string, Value>, key: string, default: Value): Value
  {
    if key in d then d[key] else default
  }

  /** `d.get(key)`, whose default is `None`. */
  function Get(d: map<string, Value>, key: string): Value
  {
    GetOr(d, key, NoneV)
  }

  /** Python's `a or b`: the first operand when it is truthy, the second otherwise. */
  function Or(a: Value, b: Value): Value
  {
    if Truthy(a) then a else b
  }

  /** The exceptions the modelled code lets escape. */
  datatype PyException =
    | KeyError(key: string)  // `record[key]` on a dict without that key
    | NotIterable            // `for x in v` where v is None, a bool, an int or another object
    | CannotUnpack           // `a, b = step` where step does not hold exactly two items

  /** What a call does: return a dict or raise. */
  datatype Outcome = Returned(dict: map<string, Value>) | Raised(error: PyException)
}
