/** What a handler or a permission helper answers: the status code and its one message field. */
module Http {

  /** An `HTTPException(status_code, detail)` raised by a helper. */
  datatype HttpError = HttpError(status: nat, detail: string)

  /** A helper that either returns a value or raises an `HTTPException`. */
  datatype Result<+T> = Success(value: T) | Failure(error: HttpError)

  /** The response of one request. */
  datatype Outcome<+T> =
    | Ok(body: T)
    | Created(body: T)
    | NoContent
    | BadRequest(message: string)
    | NotFound(message: string)
    | Unauthorized(message: string)
    | ServerError(message: string)
  {
    function Status(): nat
    {
      match this
      case Ok(_) => 200
      case Created(_) => 201
      case NoContent => 204
      case BadRequest(_) => 400
      case Unauthorized(_) => 401
      case NotFound(_) => 404
      case ServerError(_) => 500
    }

    predicate IsError() { Status() >= 400 }
  }

  /** FastAPI's answer to an exception no handler catches (an AttributeError on a missing row,
      an IntegrityError or a ValueError raised by the ORM). */
  const InternalServerError: string := "Internal Server Error"

  /** The response FastAPI sends for a raised `HTTPException`. */
  function Raise<T>(e: HttpError): (r: Outcome<T>)
    ensures r.IsError()
    ensures e.status in {400, 401, 404} ==> r.Status() == e.status
    ensures e.status !in {400, 401, 404} ==> r.Status() == 500
    ensures r.BadRequest? || r.Unauthorized? || r.NotFound? || r.ServerError?
    ensures match r
            case BadRequest(m) => m == e.detail
            case Unauthorized(m) => m == e.detail
            case NotFound(m) => m == e.detail
            case ServerError(m) => m == e.detail
            case _ => false
  {
    if e.status == 400 then BadRequest(e.detail)
    else if e.status == 401 then Unauthorized(e.detail)
    else if e.status == 404 then NotFound(e.detail)
    else ServerError(e.detail)
  }
}
