/** Optional values and the HTTP error results the services raise. */
module Wrappers {

  datatype Option<+T> = None | Some(value: T) {
    function GetOr(default: T): T {
      match this
      case Some(v) => v
      case None => default
    }
  }

  /** An `HTTPException(status_code, detail)` raised by a service or a validator. */
  datatype HttpError = HttpError(status: nat, detail: string)

  datatype Result<+T> = Ok(value: T) | Fail(error: HttpError)

  /** A field of a JSON request body: absent, an explicit `null`, or a value. */
  datatype Field<+T> = Missing | Null | Present(value: T)

  /** The value a mutation without a body returns (`-> None` in the service). */
  datatype Unit = Unit
}
