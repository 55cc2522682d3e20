/** Failure-carrying values shared by every module: the Python exceptions the
    source raises become an Error, and an operation that may raise returns a
    Result (with a value) or an Outcome (without one). */
module Wrappers {

  datatype Option<+T> = None | Some(value: T)

  /** The exception classes the modelled code can raise.  A bare
      `raise Exception("...")` keeps its message. */
  datatype Error =
    | ValueError
    | FileNotFoundError
    | KeyError
    | IndexError
    | TypeError
    | AttributeError
    | RuntimeError
    | IsADirectoryError
    | NotADirectoryError
    | BadZipFile
    | SameFileError
    | Exception(message: string)

  datatype Result<+T> = Ok(value: T) | Err(error: Error)

  datatype Outcome = Pass | Fail(error: Error)
}
