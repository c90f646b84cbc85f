/** The Python values the model lets a log record's message and keyword
    attributes carry (None, bool, int and str), their truthiness, the
    exceptions the core can raise, and the `int()` conversion the database
    handler applies to a task id. */
module Values {
  import opened Options
  import opened Strings

  /** An attribute value: `None`, a bool, an int or a string. */
  datatype Value = VNone | VBool(b: bool) | VInt(i: int) | VStr(s: string)

  /** Python truthiness: `None`, `False`, `0` and `""` are false. */
  predicate Truthy(v: Value) {
    match v
    case VNone => false
    case VBool(b) => b
    case VInt(i) => i != 0
    case VStr(s) => |s| > 0
  }

  /** The exceptions that escape the modelled code paths. */
  datatype PyError =
    | TypeError            // int(None)
    | ValueError           // int("abc")
    | KeyError(key: string) // _loggers[name] for an unregistered name
    | UnboundLocalError    // init_logger with an unrecognised name

  /** A computation that either returns a value or raises. */
  datatype Outcome<+T> = Ok(value: T) | Raise(error: PyError)

  /** Python 2's `int(v)`. */
  function IntOf(v: Value): (r: Outcome<int>)
    ensures v.VInt? ==> r == Ok(v.i)
    ensures v.VNone? ==> r == Raise(TypeError)
    ensures v.VBool? ==> r == Ok(if v.b then 1 else 0)
    ensures v.VStr? ==> (r.Ok? <==> ParseInt(v.s).Some?)
    ensures v.VStr? && r.Ok? ==> ParseInt(v.s) == Some(r.value)
    ensures r.Raise? ==> r.error == TypeError || r.error == ValueError
  {
    match v
    case VNone => Raise(TypeError)
    case VBool(b) => Ok(if b then 1 else 0)
    case VInt(i) => Ok(i)
    case VStr(s) =>
      match ParseInt(s)
      case Some(n) => Ok(n)
      case None => Raise(ValueError)
  }

  /** A task id written out as a string converts back to the same number. */
  lemma IntOfDecimal(n: int)
    ensures IntOf(VStr(Decimal(n))) == Ok(n)
  {
    ParseDecimal(n);
  }
}
