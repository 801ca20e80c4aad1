/** Failure-carrying values shared by every module. */
module Wrappers {

  /** A value that may be missing: the source's `None`. */
  datatype Option<+T> = None | Some(value: T)

  /** The exception classes of src/errors.py, and `Uncaught` for any exception of another class. */
  datatype Error = NotFound | BadManifest | PolicyDenied | InstallFailed | RunFailed | Uncaught

  /** A call that returns a value or raises one of the errors above. */
  datatype Result<+T> = Ok(value: T) | Err(error: Error) {

    predicate IsFailure() {
      Err?
    }

    function PropagateFailure<U>(): Result<U>
      requires Err?
    {
      Err(error)
    }

    function Extract(): T
      requires Ok?
    {
      value
    }
  }
}
