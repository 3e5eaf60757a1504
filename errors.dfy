/** Failure-carrying values for the cache library. Each C# exception the core
    throws becomes an `Error` tag, so that every error path is a value. */
module Errors {

  datatype Option<+T> = None | Some(value: T)

  /** Why an InvalidOperationException was thrown. */
  datatype Reason =
    | DefaultSizeAboveLimit   // DefaultItemSize > SizeLimit in a configuration
    | NameTaken               // a cache with that name is already registered
    | KeyTypeMismatch         // registered key type differs from the requested one
    | ValueTypeMismatch       // registered value type differs from the requested one
    | CollectionModified      // a .NET enumerator saw its collection change

  datatype Error =
    | ArgumentNull                                   // ArgumentNullException
    | ArgumentOutOfRange                             // ArgumentOutOfRangeException
    | InvalidOperation(reason: Reason)               // InvalidOperationException

  datatype Result<+T> = Success(value: T) | Failure(error: Error)

  /** The result of an operation that returns nothing (a C# `void` method). */
  datatype Outcome = Pass | Fail(error: Error)
}
