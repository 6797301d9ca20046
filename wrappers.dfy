/** Option and Result values standing in for Python's `None` and raised exceptions. */
module Wrappers {

  datatype Option<+T> = None | Some(value: T)

  /** The exception a Python statement would raise, by kind. */
  datatype Error =
    | IndexError      // subscript outside a list or string
    | ValueError      // int() of a string that is not an integer literal
    | KeyError        // dictionary lookup of a missing key
    | EquivocalPhase  // the first model value equals the mean (the script exits)

  datatype Result<+T> = Ok(value: T) | Err(error: Error)
}
