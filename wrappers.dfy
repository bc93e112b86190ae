/** Option and Result values, and the exceptions of the C++ standard library
    that the modelled code can raise, as explicit error values. */
module Wrappers {

  datatype Option<+T> = None | Some(value: T)

  datatype Result<+R, +E> = Success(value: R) | Failure(error: E)

  /** The standard exceptions the modelled code can throw. */
  datatype Exception =
    | OutOfRange   // std::out_of_range from std::map::at or std::vector::at
    | BadAnyCast   // std::bad_any_cast from std::any_cast
}
