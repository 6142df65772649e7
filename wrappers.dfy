/** Option and Result values for the Kotlin nullable types and exceptions of the game. */
module Wrappers {

  datatype Option<+T> = None | Some(value: T)

  datatype Result<+T, +E> = Success(value: T) | Failure(error: E)
}
