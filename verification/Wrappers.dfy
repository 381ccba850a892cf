/** Outcomes shared by the modules: an absent value, and an operation that may fail. */
module Wrappers {

  datatype Option<+T> = None | Some(value: T)

  /** `Failure` stands for the exception the program raises; its text names the check that failed. */
  datatype Result<+T> = Success(value: T) | Failure(error: string)
}
