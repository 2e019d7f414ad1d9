/** Errors raised by the modelled code, as values instead of exceptions. */
module Outcomes {

  /** `BadRequest` is the endpoints' `HTTPException(status_code=400, detail=...)`;
      the other two are the Python exceptions of the same names. */
  datatype Error =
    | BadRequest(detail: string)
    | ValueError(message: string)
    | TypeError(message: string)

  datatype Result<+T> = Ok(value: T) | Err(error: Error)
}
