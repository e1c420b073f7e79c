/** Failure-carrying results and the Python exceptions the ledger can raise. */
module Wrappers {

  datatype Option<T> = None | Some(value: T)

  /** The exceptions raised by the modelled code paths. */
  datatype Error =
    | IndexError                     // indexing an empty list
    | ValueError(message: string)    // `raise ValueError(...)`
    | AttributeError(name: string)   // reading an attribute an object does not have
    | NameError(name: string)        // reading a name that is not defined
    | TypeError(callee: string)      // calling a function with the wrong number of arguments

  /** Either the value a Python call returns, or the exception it raises. */
  datatype Result<T> = Ok(value: T) | Err(error: Error)
}
