/** Optional values and the outcome of an operation that may raise.
    Each exception the storage service raises becomes an `Err` carrying its kind. */
module Outcomes {

  /** Python's `None` as a value of a known type. */
  datatype Option<+T> = None | Some(value: T)

  /** The exceptions raised by the core, by kind. */
  datatype Error =
    | NullValue          // NullException: a required field is None
    | NullKeyValue       // NullKeyValueException: a None key or value
    | NotFound           // NotFoundException
    | BucketNotFound     // BucketNotFoundException
    | AlreadyExists      // ObjectAlreadyExistsException
    | FileExists         // FileExistsError from os.makedirs
    | ZeroDivision       // ZeroDivisionError from `% 0`
    | ValueError         // ValueError("None types are forbidden")
    | AttributeError     // attribute access on None
    | TypeError          // iterating over a bool
    | IOFailure          // "Failed to read object data/metadata"

  /** The value returned, or the exception raised. */
  datatype Result<+T> = Ok(value: T) | Err(error: Error) {

    predicate IsFailure() {
      Err?
    }

    function PropagateFailure<U>(): Result<U>
      requires Err?
    {
      Err(error)
    }

    function Extract(): T
      requires Ok?
    {
      value
    }
  }
}
