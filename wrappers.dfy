/** Failure-carrying results used across the model. */
module Wrappers {

  datatype Option<+T> = None | Some(value: T)

  /** `Failure` stands for an exception that aborts the export run. */
  datatype Result<+T> = Success(value: T) | Failure(error: string)
}
