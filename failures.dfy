/** Optional values and the error kinds of the sparse matrix, in place of C++ exceptions. */
module Failures {

  datatype Option<+T> = None | Some(value: T)

  datatype Result<+T, +E> = Success(value: T) | Failure(error: E)

  /** The binary operation that reported a shape mismatch. */
  datatype Operation = Addition | Subtraction | Multiplication

  /** What the file constructor and the arithmetic operations can throw. */
  datatype Error =
    | UnableToOpen                       // std::runtime_error("Unable to open file")
    | WrongFormat                        // std::invalid_argument("Input file has wrong format")
    | DimensionMismatch(op: Operation)   // std::invalid_argument("Matrix dimensions ...")
}
