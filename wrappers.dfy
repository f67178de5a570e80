/** Option and Result, and the Python exceptions that the modelled code
    raises, as values. */
module Wrappers {

  datatype Option<+T> = None | Some(value: T)

  /** The exceptions the modelled code can raise. */
  datatype Error =
    | ValueError(message: string)   // a failed check or a failed tuple unpacking
    | IndexError                    // `xs[0]` on an empty list
    | AttributeError                // an attribute that was never set

  datatype Result<+T> = Success(value: T) | Failure(error: Error)
}
