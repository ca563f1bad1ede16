/** Optional values and fallible results, standing for Python's None and raised exceptions. */
module Wrappers {

  datatype Option<+T> = None | Some(value: T) {
    /** `value if value is not None else default`, as in `dict.get(key, default)`. */
    function GetOr(default: T): T {
      match this
      case Some(v) => v
      case None => default
    }
  }

  /** Either a value or the text of the exception (`str(e)`) that replaced it. */
  datatype Result<+T, +E> = Ok(value: T) | Err(error: E)
}
