/** Optional values and results, used wherever the JavaScript code returns
    NaN, `null`, `-1` or reports a failure instead of a value. */
module Options {

  datatype Option<T> = None | Some(value: T)

  datatype Result<T, E> = Success(value: T) | Failure(error: E)
}
