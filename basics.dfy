/** Python's `None` and the exceptions the modelled code raises. */
module Basics {

  /** A Python value that may be `None`. */
  datatype Nullable<T> = Null | Val(value: T)

  /** Why a `ValueError` was raised by a query combinator. */
  datatype ValueErrorReason =
    | NegativeConsumeBoundary             // "Consume boundary cannot be negative"
    | NegativeWindowSize                  // "Window size cannot be negative"
    | NonPositiveStep                     // "Step must be a positive integer or None"
    | InvalidIncompleteFlag(flag: string) // "Invalid incomplete flag '<flag>', ..."
    | ZipLengthMismatch                   // zip(strict=True): "zip() argument 2 is shorter ..."

  /** The exceptions raised by the modelled operations. */
  datatype Exception =
    | NoneTypeError
    | NoSuchElementError
    | ValueError(reason: ValueErrorReason)

  /** A returned value, or the exception that was raised instead. */
  datatype Result<R> = Ok(value: R) | Err(error: Exception)

  function Min(a: int, b: int): int { if a <= b then a else b }

  function Max(a: int, b: int): int { if a <= b then b else a }
}
