/** Nullable values, exceptions as values, and the failure kinds the
    client raises.  Kotlin's `T?` becomes `Option<T>`; a thrown exception
    becomes `Err` of the matching `Failure`. */
module Wrappers {

  /** Kotlin `T?`: `None` is `null`. */
  datatype Option<+T> = None | Some(value: T) {

    function GetOr(default: T): T {
      match this
      case Some(v) => v
      case None => default
    }
  }

  /** The exceptions that escape the modelled operations. */
  datatype Failure =
    | Authentication          // AuthenticationException: HTTP 401 seen by a GET
    | SleepingCar             // SleepingCarException: HTTP 408 seen by a GET
    | Io(message: Option<string>)  // any other transport IOException, rethrown as is
    | NullPointer             // a failing `!!` or platform-type null check
    | IndexOutOfBounds        // substring or array index out of range
    | Codec                   // the structured codec rejected a response
    | NumberFormat            // String.toDouble() on text that is not a number
    | Exit(code: int)         // System.exit

  /** A value, or the exception that was thrown instead. */
  datatype Result<+T> = Ok(value: T) | Err(failure: Failure) {

    predicate IsFailure() {
      Err?
    }

    function PropagateFailure<U>(): Result<U>
      requires Err?
    {
      Err(failure)
    }

    function Extract(): T
      requires Ok?
    {
      value
    }
  }

  /** The Kotlin `!!` operator. */
  function NotNull<T>(x: Option<T>): (r: Result<T>)
    ensures r.Ok? <==> x.Some?
    ensures r.Ok? ==> r.value == x.value
    ensures r.Err? ==> r.failure == NullPointer
  {
    match x
    case Some(v) => Ok(v)
    case None => Err(NullPointer)
  }
}
