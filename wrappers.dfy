/** Option, Result and Outcome: the error paths of the modelled code (its
    raised exceptions) are returned as values. */
module Wrappers {

  datatype Option<+T> = None | Some(value: T)
  {
    function GetOr(default: T): T
    {
      if Some? then value else default
    }
  }

  datatype Result<+R, +E> = Success(value: R) | Failure(error: E)

  /** A step that either completes or raises `error`. */
  datatype Outcome<+E> = Pass | Fail(error: E)
}
