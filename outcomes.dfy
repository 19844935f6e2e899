/** Optional values and results with an error, as the C++ code uses
    `std::optional` and exceptions caught at an operation boundary. */
module Outcomes {

  datatype Option<+T> = None | Some(value: T)

  datatype Result<+T, +E> = Success(value: T) | Failure(error: E)
}
