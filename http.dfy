/**
 * The error value the three agent handlers raise (FastAPI's `HTTPException`)
 * and the result type of a handler: the reply it returns, or the exception.
 */
module Http {

  /** `HTTPException(status_code=..., detail=...)`. */
  datatype HttpException = HttpException(statusCode: int, detail: string)

  /** A handler either returns a reply or raises an `HttpException`. */
  datatype Result<T> = Ok(value: T) | Err(error: HttpException)
}
