/** Option and Result, the two shapes in which the model reports a missing value or a
    rejected operation instead of a JavaScript `null` or an `alert(...); return;`. */
module Wrappers {

  datatype Option<+T> = None | Some(value: T)

  datatype Result<+R, +E> = Success(value: R) | Failure(error: E)
}
