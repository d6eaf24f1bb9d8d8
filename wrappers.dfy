/** Failure-carrying result types shared by the models of the command-line and GUI front ends. */
module Wrappers {

  /** An optional value; None stands for "absent" (npos, a failed parse). */
  datatype Option<+T> = None | Some(value: T)

  /** The value of an operation that may throw; Err carries the exception the source raises. */
  datatype Result<+T, +E> = Ok(value: T) | Err(error: E)
}
