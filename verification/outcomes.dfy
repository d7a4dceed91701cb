/** Outcome types shared by every module: a value that may be absent (Python's None)
    and a computation that may end in one of the source's exceptions or error statuses. */
module Outcomes {

  datatype Option<+T> = None | Some(value: T)

  datatype Result<+T, +E> = Success(value: T) | Failure(error: E)
}
