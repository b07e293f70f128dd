/** Option and exception-carrying results shared by the whole model. */
module Wrappers {

  /** A possibly absent value: Java's `null` or `Optional.empty()`. */
  datatype Option<+T> = None | Some(value: T)
  {
    function GetOr(default: T): T
    {
      match this
      case Some(v) => v
      case None => default
    }
  }

  /** The Java exceptions that escape an operation of the model. */
  datatype Error =
    | WrongType           // Redis WRONGTYPE reply
    | WrongArity          // a variadic Redis command sent without arguments
    | NoSuchKey           // Redis LSET on a missing list
    | IndexOutOfRange     // Redis LSET past the end of a list
    | InvalidExpireTime   // Redis SETEX with a non-positive time
    | DecodeFailed        // Gson threw while parsing
    | NullValue           // a null reached a map or `Optional.of`, which reject it
    | ClassCast           // Class.cast threw ClassCastException
    | IllegalArgument     // a builder rejected a setting
    | IllegalState        // a builder's settings were inconsistent when it was used
    | Transport           // the connection to the server failed

  /** The outcome of a Java call that returns a value or throws. */
  datatype Result<+T> = Ok(value: T) | Err(error: Error)

  /** The outcome of a Java call returning `void` that may throw. */
  datatype Outcome = Pass | Fail(error: Error)

  /** `map.get(k)` as an Option. */
  function Lookup<K, V>(m: map<K, V>, k: K): (r: Option<V>)
    ensures r.Some? <==> k in m
    ensures r.Some? ==> r.value == m[k]
  {
    if k in m then Some(m[k]) else None
  }
}
