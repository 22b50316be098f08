/** Failure-carrying results shared by every module of the model. */
module Wrappers {

  /** Java's Optional / a nullable reference. */
  datatype Option<+T> = None | Some(value: T)

  /** The Java exceptions the modelled code throws or lets escape. */
  datatype Exception =
    | IllegalArgumentException
    | IllegalStateException
    | UnsupportedOperationException
    | IndexOutOfBoundsException
    | NoSuchElementException
    | ClassCastException
    | NullPointerException
    | IOException
    | RuntimeException
    | UnixException(errno: int)
    /** an exception raised by foreign code (a native call, an allocator) */
    | ForeignException

  /** A computation that returns a value or throws. */
  datatype Result<+T> = Ok(value: T) | Err(error: Exception) {
    predicate IsFailure() { Err? }

    function PropagateFailure<U>(): Result<U>
      requires Err?
    {
      Err(error)
    }

    function Extract(): T
      requires Ok?
    {
      value
    }
  }
}
