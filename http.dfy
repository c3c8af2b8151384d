/** Status codes and the failure-compatible result type shared by the services.
    Every error the services raise is an `HttpClientErrorException` carrying a
    status code, except the null dereference (`!!`) in the detail view. */
module Http {

  const OK: int := 200
  const BAD_REQUEST: int := 400
  const UNAUTHORIZED: int := 401
  const NOT_FOUND: int := 404
  const INTERNAL_SERVER_ERROR: int := 500

  /** What a service call can throw. */
  datatype Failure =
    | ClientError(status: int)   // HttpClientErrorException(status)
    | NullDereference            // Kotlin's `!!` applied to null

  datatype Option<+T> = None | Some(value: T)

  /** A returned value or a thrown failure; usable with `:-`. */
  datatype Result<+T> = Ok(value: T) | Err(failure: Failure) {
    predicate IsFailure() { Err? }

    function PropagateFailure<U>(): Result<U>
      requires Err?
    {
      Err(failure)
    }

    function Extract(): T
      requires Ok?
    {
      value
    }
  }
}
