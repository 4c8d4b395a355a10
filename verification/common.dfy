/** Failure-carrying wrappers shared by the other modules. */
module Common {

  /** A value that may be absent, as Python's `None`. */
  datatype Option<+T> = None | Some(value: T)

  /** The outcome of an operation that can raise: `Err` carries the exception's message. */
  datatype Result<+T> = Ok(value: T) | Err(message: string)

  function Max(a: int, b: int): (m: int)
    ensures m >= a && m >= b
    ensures m == a || m == b
  {
    if a >= b then a else b
  }
}
