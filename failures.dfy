/** Python exception kinds that the modelled code raises or catches, and the
    result wrappers that carry them. */
module Failures {

  /** The exception classes raised by the modelled code.  `LookupError` is the
      base class of `KeyError` and `IndexError` in Python; the model keeps the
      class actually raised. */
  datatype Failure =
    | LookupError
    | KeyError
    | IndexError
    | ValueError
    | TypeError
    | RuntimeError
    | AttributeError
    | NotImplementedError

  /** `KeyError` and `IndexError` are caught by an `except LookupError`. */
  predicate IsLookup(f: Failure)
  {
    f == LookupError || f == KeyError || f == IndexError
  }

  /** A computation that returns a value or raises. */
  datatype Result<T> = Ok(value: T) | Err(failure: Failure)
  {
    function Map<U>(f: T -> U): (r: Result<U>)
      ensures r.Ok? <==> this.Ok?
      ensures r.Ok? ==> r.value == f(this.value)
      ensures r.Err? ==> r.failure == this.failure
    {
      match this
      case Ok(v) => Ok(f(v))
      case Err(e) => Err(e)
    }
  }

  /** A statement that completes or raises. */
  datatype Outcome = Done | Raised(failure: Failure)

  datatype Option<T> = None | Some(value: T)
}
