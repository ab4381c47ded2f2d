/** Option and Result, standing in for the source's `null` and thrown errors. */
module Wrappers {

  /** `None` is the source's `null` ("no data loaded"). */
  datatype Option<+T> = None | Some(value: T)

  /** `Failure` is a query that throws in the source. */
  datatype Result<+R, +E> = Success(value: R) | Failure(error: E)
}
