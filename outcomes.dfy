/** The Python exceptions and `None` values that the modelled code can produce. */
module Outcomes {
  /** A Python value that may be `None`. */
  datatype Option<+T> = None | Some(value: T)

  /** The exceptions the modelled code can raise. */
  datatype Error =
    | ZeroDivisionError      // a division by zero (`x / 0` or `0 ** -n`)
    | KeyError(key: string)  // a dictionary lookup of a missing key
    | IndexError             // `pop()` from an empty list
    | TypeError              // slicing `None`

  /** A computation that returns a value or raises an exception. */
  datatype Result<+T> = Ok(value: T) | Err(error: Error)
}
