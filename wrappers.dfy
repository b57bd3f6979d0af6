/** Optional values and fallible results, used for the parse state's error slot
    and for rendering helpers that fail on value kinds they do not know. */
module Wrappers {

  datatype Option<+T> = None | Some(value: T)

  datatype Result<+T, +E> = Success(value: T) | Failure(error: E)
}
