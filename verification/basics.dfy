/** Optional values and error-carrying results, the two shapes in which the
    card's JavaScript returns "nothing" (`null`) or throws. */
module Basics {

  datatype Option<+T> = None | Some(value: T)

  datatype Result<+R, +E> = Success(value: R) | Failure(error: E)
}
