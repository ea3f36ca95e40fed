/** Optional values and results that may be an exception. */
module Wrappers {
  datatype Option<+T> = None | Some(value: T)

  /** A value, or the exception of the operation at hand. */
  datatype Result<+T> = Ok(value: T) | Raised {
    predicate IsFailure() {
      Raised?
    }

    function PropagateFailure<U>(): Result<U>
      requires Raised?
    {
      Raised
    }

    function Extract(): T
      requires Ok?
    {
      value
    }
  }

  /** The answer of an administration endpoint: its result, or the HTTP status of the refusal. */
  datatype Response<+T> = Success(value: T) | Refused(status: int)
}
