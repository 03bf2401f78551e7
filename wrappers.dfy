/** Failure-carrying values shared by the whole model.
    `Option` stands for a reference that may be null; `Result` stands for a call
    that either returns a value or throws one of the .NET exceptions the source raises. */
module Wrappers {

  datatype Option<+T> = None | Some(value: T)

  /** The exceptions that the modelled code can raise. */
  datatype Exception =
    | ArgumentException
    | ArgumentNullException
    | ArgumentOutOfRangeException
    | DivideByZeroException
    | OverflowException
    | FormatException
    | KeyNotFoundException
    | InvalidOperationException

  datatype Result<+T> = Ok(value: T) | Throws(exception: Exception)
}
