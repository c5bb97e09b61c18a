/** The retry loops around a transaction and around a plain database operation. */
module RetryLoop {
  import opened Common

  // ---- errors ----

  datatype DbError =
    | InvalidArgument
    | InvalidConnection
    | BrokenConnection
    | Interrupted
    | SerializationFailure
    | DeadlockDetected
    | UniqueViolation
    | ConstraintViolation
    | DbUnavailable
    | DbInternal

  predicate IsRetryable(e: DbError) {
    e.InvalidConnection? || e.Interrupted? || e.BrokenConnection? || e.SerializationFailure? || e.DeadlockDetected?
  }

  predicate ShouldReconnect(e: DbError) {
    e.InvalidConnection? || e.BrokenConnection?
  }

  /** Which code a failure is reported as. */
  function MapServiceError(e: DbError): (r: Error)
    ensures r == ValidationError <==> e == InvalidArgument || e == ConstraintViolation
    ensures r == Conflict <==> e == UniqueViolation
    ensures r == Internal <==> e == DbInternal
    ensures r == Unavailable <==>
            e in {InvalidConnection, BrokenConnection, Interrupted, SerializationFailure, DeadlockDetected,
                  DbUnavailable}
  {
    match e
    case InvalidArgument => ValidationError
    case ConstraintViolation => ValidationError
    case UniqueViolation => Conflict
    case DbInternal => Internal
    case _ => Unavailable
  }

  // ---- the environment of one call ----

  /**
   * What attempt k meets: what other clients commit before it, whether the connection is up, whether the
   * transaction throws and so rolls back, and how a reconnect afterwards ends.
   */
  datatype Circumstances<!S> = Circumstances(
    others: S -> S,
    connected: bool,
    thrown: Option<DbError>,
    reconnect: Option<DbError>)

  /** The failure of the attempt itself, if it has one. */
  function OwnFailure<S>(c: Circumstances<S>): Option<DbError> {
    if !c.connected then Some(InvalidConnection) else c.thrown
  }

  /** How `handle_service_db_error` ends: none to go on, or the error to return. */
  function Verdict<S>(c: Circumstances<S>, failure: DbError, attempt: int, retryCount: int): Option<Error> {
    if attempt == retryCount || !IsRetryable(failure) then Some(MapServiceError(failure))
    else if ShouldReconnect(failure) && c.reconnect.Some? && !IsRetryable(c.reconnect.value) then
      Some(MapServiceError(c.reconnect.value))
    else None
  }

  predicate GoesOn<S>(c: Circumstances<S>, attempt: int, retryCount: int) {
    OwnFailure(c).Some? && Verdict(c, OwnFailure(c).value, attempt, retryCount).None?
  }

  /** An attempt leads to another exactly when both its failure and that of its reconnect, if it needs one, may pass. */
  lemma GoesOnMeans<S>(c: Circumstances<S>, attempt: int, retryCount: int)
    ensures GoesOn(c, attempt, retryCount) <==>
            && attempt != retryCount
            && (c.connected ==>
                  && c.thrown.Some?
                  && c.thrown.value in {InvalidConnection, BrokenConnection, Interrupted, SerializationFailure,
                                        DeadlockDetected})
            && ((c.connected ==> c.thrown.value in {InvalidConnection, BrokenConnection}) && c.reconnect.Some? ==>
                  c.reconnect.value in {InvalidConnection, BrokenConnection, Interrupted, SerializationFailure,
                                        DeadlockDetected})
  {
  }

  /** The tables after what other clients committed before the first `k` attempts. */
  function Others<S>(env: nat -> Circumstances<S>, s: S, k: nat): S {
    if k == 0 then s else env(k).others(Others(env, s, k - 1))
  }

  class Tables<S> {
    var state: S

    constructor (initial: S)
      ensures state == initial
    {
      state := initial;
    }

    /**
     * `with_retry_service_write_transaction`. At most `retryCount` attempts are made; every attempt but the last
     * failed retryably; the callback's effect is applied once on success and not at all on an error; before the
     * last attempt a retryable failure of the transaction is never returned itself, only a reconnect that failed
     * for good; and for a positive count the loop always decides.
     */
    method WithRetry<T>(retryCount: int, callback: S -> Result<(S, T)>, env: nat -> Circumstances<S>)
      returns (r: Result<T>, ghost attempts: nat)
      modifies this
      ensures retryCount <= 0 ==> attempts == 0 && r == Err(ValidationError) && state == old(state)
      ensures retryCount > 0 ==> 1 <= attempts <= retryCount && !GoesOn(env(attempts), attempts, retryCount)
      ensures forall k: nat :: 1 <= k < attempts ==> GoesOn(env(k), k, retryCount)
      ensures retryCount > 0 ==>
                var before, failure := Others(env, old(state), attempts), OwnFailure(env(attempts));
                if failure.Some? then
                  && state == before && r.Err?
                  && Verdict(env(attempts), failure.value, attempts, retryCount) == Some(r.error)
                else if callback(before).Err? then
                  state == before && r == Err(callback(before).error)
                else
                  r.Ok? && callback(before) == Ok((state, r.value))
      ensures forall k: nat :: 1 <= k < attempts ==>
                || !env(k).connected
                || env(k).thrown in {Some(InvalidConnection), Some(BrokenConnection), Some(Interrupted),
                                     Some(SerializationFailure), Some(DeadlockDetected)}
      ensures 0 < attempts < retryCount && env(attempts).connected ==>
                env(attempts).thrown !in {Some(Interrupted), Some(SerializationFailure), Some(DeadlockDetected)}
      ensures 0 < attempts < retryCount
              && (|| !env(attempts).connected
                  || env(attempts).thrown in {Some(InvalidConnection), Some(BrokenConnection)}) ==>
                && env(attempts).reconnect in {Some(InvalidArgument), Some(UniqueViolation), Some(ConstraintViolation),
                                               Some(DbUnavailable), Some(DbInternal)}
                && r == Err(MapServiceError(env(attempts).reconnect.value))
    {
      if retryCount <= 0 {
        return Err(MapServiceError(InvalidArgument)), 0;
      }
      attempts := 0;
      var attempt: nat := 1;
      while attempt <= retryCount
        invariant 1 <= attempt <= retryCount
        invariant attempts == attempt - 1 && state == Others(env, old(state), attempts)
        invariant forall k: nat :: 1 <= k <= attempts ==> GoesOn(env(k), k, retryCount)
        decreases retryCount - attempt
      {
        attempts := attempt;
        var met := env(attempt);
        state := met.others(state);
        var failure := OwnFailure(met);
        if failure.Some? {
          var verdict := Verdict(met, failure.value, attempt, retryCount);
          if verdict.Some? {
            return Err(verdict.value), attempts;
          }
          attempt := attempt + 1;
          continue;
        }
        var done := callback(state);
        if done.Err? {
          return Err(done.error), attempts;
        }
        state := done.value.0;
        return Ok(done.value.1), attempts;
      }
      assert false;
    }
  }

  // ---- retry_db_operation ----

  datatype Operation<+T> = Done(value: T) | Failed(error: DbError)

  /**
   * The result is always that of the last operation made, never the error of a reconnect, although the loop
   * records one; the operation is repeated exactly while it fails retryably and attempts are left.
   */
  method RetryOperation<T>(retryCount: int, operation: nat -> Operation<T>, reconnect: nat -> Option<DbError>)
    returns (r: Operation<T>, attempts: nat)
    ensures retryCount <= 0 ==> r == Failed(InvalidArgument) && attempts == 0
    ensures retryCount > 0 ==> 1 <= attempts <= retryCount && r == operation(attempts)
    ensures 0 < attempts < retryCount ==>
              || operation(attempts).Done?
              || operation(attempts).error !in {InvalidConnection, BrokenConnection, Interrupted, SerializationFailure,
                                                DeadlockDetected}
    ensures forall k: nat :: 1 <= k < attempts ==>
              && operation(k).Failed?
              && operation(k).error in {InvalidConnection, BrokenConnection, Interrupted, SerializationFailure,
                                        DeadlockDetected}
  {
    if retryCount <= 0 {
      return Failed(InvalidArgument), 0;
    }
    var lastError := DbInternal;
    var attempt: nat := 1;
    while attempt <= retryCount
      invariant 1 <= attempt <= retryCount
      invariant forall k: nat :: 1 <= k < attempt ==> operation(k).Failed? && IsRetryable(operation(k).error)
      decreases retryCount - attempt
    {
      var result := operation(attempt);
      if result.Done? {
        return result, attempt;
      }
      lastError := result.error;
      if attempt == retryCount || !IsRetryable(result.error) {
        return Failed(result.error), attempt;
      }
      if ShouldReconnect(result.error) && reconnect(attempt).Some? {
        lastError := reconnect(attempt).value;
      }
      attempt := attempt + 1;
    }
    assert false;
  }
}
