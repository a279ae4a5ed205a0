/** The Option and Result datatypes shared by the modules. */
module Wrappers {

  /** An optional value: the model of a nullable pointer or an optional out-parameter. */
  datatype Option<+T> = None | Some(value: T)

  /** A value or the error that stopped the computation (a failed CHECK or a LOG(FATAL)). */
  datatype Result<+R, +E> = Success(value: R) | Failure(error: E)
}
