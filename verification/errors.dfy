/** Error values shared by the data layer, and the Option wrapper the model uses for
    nullable columns and "maybe an error" results. */
module Errors {

  datatype Option<+T> = None | Some(value: T)

  /** A value or the error that replaced it. */
  datatype Result<+T> = Ok(value: T) | Err(error: Error)

  /** The error values the data layer returns. The first three are the package's own
      sentinels; the others stand for errors that come from the driver or the runtime. */
  datatype Error =
    | RecordNotFound              // ErrRecordNotFound
    | EditConflict                // ErrEditConflict
    | QuotaExceeded               // ErrQuotaExceeded
    | InvalidTimeFormat           // ErrInvalidTimeFormat
    | DuplicateEmail              // ErrDuplicateEmail
    | NoRows                      // sql.ErrNoRows, returned unwrapped
    | Pq(code: string)            // a *pq.Error raised by PostgreSQL (constraint, serialization, ...)
    | DeadlineExceeded            // context.DeadlineExceeded
    | RetriesExhausted(retries: int)  // "transaction failed after N retries"
    | TxDone                      // sql.ErrTxDone and other transaction-handle errors

  /** PostgreSQL's SQLSTATE for a unique-key violation. */
  const UniqueViolation: string := "23505"

  /** The errors WithTxRetry treats as transient: PostgreSQL errors and deadlines. */
  predicate Retryable(e: Error) {
    e.Pq? || e.DeadlineExceeded?
  }
}
