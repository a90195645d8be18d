/** Datatypes for the three ways a Python expression in the model can come out:
    a dictionary lookup that found nothing, a fatal exit of `main`, and an
    exception that escapes. */
module Wrappers {

  /** A JSON key or environment variable that is either present, with its value,
      or absent (Python's `None`). */
  datatype Option<+T> = None | Some(value: T) {

    /** What `d.get(key, fallback)` yields: the present value, else `fallback`. */
    function ValueOr(fallback: T): T {
      if Some? then value else fallback
    }
  }

  /** A configuration that was built, or the message `main` exits with instead. */
  datatype Result<+R, +E> = Success(value: R) | Failure(error: E)

  /** Running Python code that may throw: `Raises` is any exception (KeyError,
      IndexError, a request error) escaping it, `Returns` carries its value. */
  datatype Eval<+T> = Raises | Returns(value: T)
}
