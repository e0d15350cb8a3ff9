// Option and Result values, and the Python exception kinds that the modelled
// code raises, so that error paths are values rather than preconditions.
module Wrappers {

  datatype Option<T> = None | Some(value: T)
  {
    function GetOr(default: T): (r: T)
      ensures this.Some? ==> r == value
      ensures this.None? ==> r == default
    {
      match this
      case Some(v) => v
      case None => default
    }
  }

  /** Python truthiness of an optional string: present and non-empty. */
  predicate Given(s: Option<string>) {
    s.Some? && |s.value| > 0
  }

  /** The exceptions raised by the modelled code. */
  datatype Error =
    | ValueError(message: string)
    | RuntimeError(message: string)
    | TypeError(message: string)
    | OverflowError(message: string)
    | IndexError(message: string)
    | ZeroDivisionError(message: string)
    | AttributeError(message: string)

  datatype Result<T> = Ok(value: T) | Err(error: Error)
}
