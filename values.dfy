/**
 * The Python values the student service handles: the scalars a stored JSON
 * record can hold, the dictionaries built from them, Python truthiness, and
 * the exceptions the core can raise.
 */
module Values {

  /** A JSON scalar of a stored record: a string, a number (GPA is stored as a number) or null. */
  datatype Value = Str(text: string) | Num(num: real) | Null

  /** A Python dict with string keys, one record in flat form. */
  type Dict = map<string, Value>

  /** The Python exceptions the core lets escape. */
  datatype Error = KeyError(key: string) | TypeError | ValueError

  datatype Result<T> = Ok(value: T) | Err(error: Error)

  datatype Option<T> = None | Some(value: T)

  /** Python truthiness: empty strings, zero and None are false. */
  predicate Truthy(v: Value)
  {
    match v
    case Str(s) => s != ""
    case Num(n) => n != 0.0
    case Null => false
  }

  /** Python `x or y`. */
  function Or(x: Value, y: Value): Value
  {
    if Truthy(x) then x else y
  }

  /** Python `d.get(k, default)`. */
  function Get(d: Dict, k: string, default: Value): Value
  {
    if k in d then d[k] else default
  }

  /**
   * Python `float(v)`. A number converts to itself, None raises TypeError;
   * parsing numeric text is not modelled, so every string raises ValueError.
   */
  function ToFloat(v: Value): Result<real>
  {
    match v
    case Num(n) => Ok(n)
    case Null => Err(TypeError)
    case Str(_) => Err(ValueError)
  }

  /** Python `s[:8]`: the first eight characters, or all of a shorter string. */
  function Prefix8(s: string): (r: string)
    ensures r <= s
    ensures |r| == if |s| < 8 then |s| else 8
  {
    if |s| <= 8 then s else s[..8]
  }
}
