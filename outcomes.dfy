/** Option and Result, for the places where the scripts return None or raise. */
module Outcomes {

  datatype Option<+T> = None | Some(value: T)

  /** The failures the inventory operations report to their caller. */
  datatype Error =
    | NotFound(message: string)     // a missing ledger, item or staging photo
    | ServerError(message: string)  // any other exception, reported as a generic failure

  datatype Result<+T> = Ok(value: T) | Err(error: Error)

  function Max(a: int, b: int): int { if a < b then b else a }

  function Min(a: int, b: int): int { if a < b then a else b }

  /** The members of a sequence, as a set. */
  function Elements<T>(s: seq<T>): set<T>
  {
    set x | x in s
  }
}
