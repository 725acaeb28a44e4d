/** Optional values and results with an error, used wherever the source
    returns `None`/`undefined` or throws. */
module Options {

  datatype Option<+T> = None | Some(value: T)

  datatype Result<+T, +E> = Ok(value: T) | Err(error: E)
}
