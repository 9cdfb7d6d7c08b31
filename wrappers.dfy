/** The Option and Result datatypes shared by every module of the model. */
module Wrappers {

  datatype Option<T> = None | Some(value: T)

  /** `Err` stands for a path of the program that calls `die` (prints a
      diagnostic and exits with a failure status). */
  datatype Result<T, E> = Ok(value: T) | Err(error: E)
}
