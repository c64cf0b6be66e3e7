/** Optional values and results with the Python exception kinds that the modelled code can raise. */
module Wrappers {

  datatype Option<+T> = None | Some(value: T)

  /** The Python exception classes raised on the modelled error paths. */
  datatype PyError =
    | IndexError          // sequence index out of range
    | KeyError            // dictionary lookup of a missing key
    | ValueError          // range errors, unparsable integers, `range()` with step 0
    | AttributeError      // attribute access on `None`
    | UnboundLocalError   // read of a local that was never assigned

  datatype Result<+T> = Ok(value: T) | Err(error: PyError)
}
