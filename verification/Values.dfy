/**
 Values that several components share: what may be absent, what may fail, and
 the numbers of JavaScript.
 */
module Values {

  datatype Option<+T> = None | Some(value: T)

  datatype Result<+T, +E> = Success(value: T) | Failure(error: E) {
    predicate IsFailure() { Failure? }

    function PropagateFailure<U>(): Result<U, E>
      requires Failure?
    {
      Failure(error)
    }

    function Extract(): T
      requires Success?
    {
      value
    }
  }

  // A JavaScript number.  `1e999` parses to Infinity, so it need not be finite.
  datatype Number = Finite(value: real) | NonFinite

  function GetOr<T>(o: Option<T>, default: T): T {
    if o.Some? then o.value else default
  }
}
