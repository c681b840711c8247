/** Options, failure-carrying results and logs shared by every other module. */
module Wrappers {
  datatype Option<+T> = None | Some(value: T)

  function Appended<T>(log: seq<T>, x: Option<T>): seq<T> {
    if x.Some? then log + [x.value] else log
  }

  datatype Result<+T, +E> = Success(value: T) | Failure(error: E)
}
