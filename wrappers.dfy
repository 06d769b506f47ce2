/** Option and Result values used for the absent answers and the exceptions of the checks. */
module Wrappers {
  datatype Option<T> = None | Some(value: T)

  /** The exceptions the modelled code can raise, named after the Python ones. */
  datatype Error =
    | IndexError
    | ValueError
    | KeyError
    | TypeError
    | AttributeError

  datatype Result<T> = Ok(value: T) | Err(error: Error)
}
