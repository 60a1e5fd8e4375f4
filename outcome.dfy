/** Python exceptions that the file comparator raises or lets through, and the
    result of an operation that either returns a value or raises one of them. */
module Outcome {

  /** An exception as the caller sees it: its class and its `str(e)`. */
  datatype Exception =
    | ValueError(message: string)
    | OSError(message: string)

  /** A value returned normally, or the exception raised instead. */
  datatype Result<+T> = Success(value: T) | Failure(error: Exception)

  /** `raise ValueError(f"{prefix}{str(e)}")` in a handler: the message starts
      with the prefix, and what follows it is the text of the exception caught. */
  function Wrapped(prefix: string, reason: string): (e: Exception)
    ensures e.ValueError? && |prefix| <= |e.message|
    ensures e.message[..|prefix|] == prefix && e.message[|prefix|..] == reason
  {
    var m := prefix + reason;
    assert m[..|prefix|] == prefix && m[|prefix|..] == reason;
    ValueError(m)
  }
}
