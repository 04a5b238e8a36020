/** Optional values: the model's stand-in for Java's `null` and for
    methods that return either a value or nothing. */
module Wrappers {

  datatype Option<+T> = None | Some(value: T) {

    /** The value, or `default` when there is none. */
    function GetOr(default: T): T
    {
      match this
      case Some(v) => v
      case None => default
    }
  }

  /** A value, or the exception that ended the computation instead. */
  datatype Result<+T, +E> = Ok(value: T) | Thrown(error: E)
}
