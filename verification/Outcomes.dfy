/** The two result shapes every service shares: an optional column value, and a
    call that either returns a value or throws one of the services' exceptions. */
module Outcomes {

  datatype Option<+T> = None | Some(value: T)

  datatype Error =
    | NotFound
    | Conflict(reason: string)
    | BadRequest(reason: string)
    | Unauthorized(reason: string)
    | UniqueViolation
    | BadItem(index: nat)

  datatype Result<+T> = Ok(value: T) | Err(error: Error)

  /** What a call that also writes to the tables gives back: the tables as the call
      leaves them (exceptions do not undo writes made outside a transaction) and its result. */
  datatype Effect<+S, +T> = Effect(db: S, result: Result<T>)
}
