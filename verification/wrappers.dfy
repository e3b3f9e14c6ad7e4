/** Small failure-aware datatypes shared by the task-list model. */
module Wrappers {

  /** An optional value: a task deadline is either absent or a timestamp. */
  datatype Option<+T> = None | Some(value: T)

  /** The outcome of an operation that can be refused with an error. */
  datatype Result<+R, +E> = Ok(value: R) | Err(error: E)
}
