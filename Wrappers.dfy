/** Option and Result: the model's stand-ins for C#'s null and for exceptions. */
module Wrappers {

  datatype Option<+T> = None | Some(value: T)

  datatype Result<+T, +E> = Success(value: T) | Failure(error: E)

  /** The later of two "most recent" observations: the second one wins when present. */
  function Latest<T>(earlier: Option<T>, later: Option<T>): (r: Option<T>)
    ensures later.Some? ==> r == later
    ensures later.None? ==> r == earlier
  {
    if later.Some? then later else earlier
  }
}
