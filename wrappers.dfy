/**
 * Value types shared by the whole model: a nullable value, the outcome of a
 * computation that may throw, and the kinds of .NET exception the catalogue
 * code raises.
 */
module Wrappers {

  /** A value that may be absent; `None` stands for a .NET `null` reference. */
  datatype Option<+T> = None | Some(value: T)

  /** The .NET exception types thrown by the catalogue and its validators. */
  datatype Exception =
    | ArgumentNullException
    | ArgumentException
    | ArgumentOutOfRangeException
    | NullReferenceException
    /** A plain `System.Exception`, thrown by the list service for duplicates and misses. */
    | PlainException
    /** The ArgumentException that `Dictionary.Add` throws for a key already present. */
    | DuplicateKeyException

  /** The outcome of a `void` operation: it either returns or throws. */
  datatype Status = Completed | Threw(exception: Exception)

  /** The outcome of an operation that returns a value or throws. */
  datatype Result<+T> = Success(value: T) | Failure(exception: Exception)
}
