/** Option and Result, and the exceptions the modelled Python code raises. */
module Wrappers {

  datatype Option<+T> = None | Some(value: T)

  /** The Python exception classes the core raises, with the part of their message that matters. */
  datatype Error =
    | ApiError(message: string)          // parse_response: the envelope carried an error field
    | KeyError(key: string)              // a missing dictionary key or frame column
    | TypeError(message: string)         // an operation applied to a value of the wrong type
    | ValueError(message: string)        // int(), date() or a record constructor refused its input
    | AttributeError(message: string)    // a method called on a value that does not have it
    | IndexError(message: string)        // a position past the end of a sequence or frame
    | OverflowError(message: string)     // a date stepped past 9999-12-31
    | NoExpirations(message: string)     // fetch_underlying_ohlc: the listing came back empty
    | DerivationFailed(message: string)  // fetch_underlying_ohlc: no expiration/right was usable
    | Transport(message: string)         // the HTTP layer gave up (left abstract)

  /** The outcome of a call that may raise; `:-` propagates the exception. */
  datatype Result<+T> = Ok(value: T) | Err(error: Error)
  {
    predicate IsFailure() { Err? }

    function PropagateFailure<U>(): Result<U>
      requires Err?
    {
      Err(error)
    }

    function Extract(): T
      requires Ok?
    {
      value
    }
  }
}
