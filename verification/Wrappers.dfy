/** Results, and the errors the system reports. */
module Wrappers {

  datatype Option<+T> = None | Some(value: T)

  datatype Error =
    | HashMismatch(index: nat, expected: string, actual: string)
    | JobNotFound(jobId: string)
    | ErasureError
    | IoError
    | SerdeError
    | ProtoError

  datatype Result<+T> = Success(value: T) | Failure(error: Error) {
    predicate IsFailure() {
      Failure?
    }

    function PropagateFailure<U>(): (r: Result<U>)
      requires Failure?
    {
      Failure(error)
    }

    function Extract(): T
      requires Success?
    {
      value
    }
  }

  datatype Outcome = Pass | Fail(error: Error)
}
