/** Shared vocabulary: optional values, results and the error codes of the repositories and services. */
module Common {

  datatype Option<+T> = None | Some(value: T)

  /** The repository and service error codes the modelled transactions can end with. */
  datatype Error =
    | InvalidReference
    | InvalidInput
    | ValidationError
    | Forbidden
    | NotFound
    | Conflict
    | Unavailable
    | Internal

  /** A failure-compatible result: `Err` is a rolled back transaction, so it carries no state. */
  datatype Result<+T> = Ok(value: T) | Err(error: Error) {

    predicate IsFailure() {
      Err?
    }

    function PropagateFailure<U>(): Result<U>
      requires Err?
    {
      Err(error)
    }

    function Extract(): T
      requires Ok?
    {
      value
    }
  }

  /** A statement group inside a transaction did what `expected` says; a failure may leave the tables half written. */
  ghost predicate Performs<T, U>(r: Result<U>, expected: Result<T>, now: T) {
    if expected.Ok? then r.Ok? && now == expected.value else r == Err(expected.error)
  }
}
