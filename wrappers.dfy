/** Failure-carrying results shared by every module of the model. */
module Wrappers {

  datatype Option<+T> = None | Some(value: T)

  /** What a JavaScript call throws, by kind. */
  datatype Exception =
    | NetworkError   // a rejected axios request (network, HTTP status, authentication)
    | SyntaxError    // JSON.parse on malformed text
    | TypeError      // a property read on null/undefined, or iteration over a non-iterable
    | RangeError     // a typed array of negative length
    | LibraryError   // a failure inside a foreign library (pako, CryptoJS)

  /** A value, or the exception a call threw. */
  datatype Result<+T> = Ok(value: T) | Err(error: Exception)
}
