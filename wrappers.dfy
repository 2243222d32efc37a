/** Option and Result values, and the Python exceptions the modelled code can raise. */
module Wrappers {

  datatype Option<+T> = None | Some(value: T)

  /** The Python exceptions that escape the modelled extractors. */
  datatype PyError =
    | AttributeError  // a lookup on `None` (a missing element or attribute)
    | ValueError      // `int(...)` of a string that is not an integer
    | IndexError      // a list index past its end

  datatype Result<+T> = Ok(value: T) | Err(error: PyError)
}
