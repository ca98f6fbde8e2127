/** The HTTP layer's translation of service errors into a status and a JSON error body. */
module ErrorHandler {
  import opened CartService

  /** The JSON body `{code, message}` together with the status it is sent with. */
  datatype ErrorResponse = ErrorResponse(status: int, code: string, message: string)

  const StatusBadRequest := 400
  const StatusNotFound := 404
  const StatusInternalServerError := 500

  /** `HandleError`: NotFound is 404, BadRequest is 400, every other error is a 500. */
  function HandleError(e: ServiceError): (r: ErrorResponse)
    ensures r.status == StatusNotFound <==> e == NotFound
    ensures r.status == StatusBadRequest <==> e == BadRequest
    ensures r.status == StatusInternalServerError <==> e !in {NotFound, BadRequest}
    ensures e == NotFound ==> r.code == "NOT_FOUND" && r.message == "Resource not found"
    ensures e == BadRequest ==> r.code == "BAD_REQUEST" && r.message == "Bad request"
    ensures e !in {NotFound, BadRequest} ==>
              r.code == "INTERNAL_SERVER_ERROR" && r.message == "Internal server error"
  {
    match e
    case NotFound => ErrorResponse(StatusNotFound, "NOT_FOUND", "Resource not found")
    case BadRequest => ErrorResponse(StatusBadRequest, "BAD_REQUEST", "Bad request")
    case _ => ErrorResponse(StatusInternalServerError, "INTERNAL_SERVER_ERROR", "Internal server error")
  }

  /** The status alone fixes the body: two errors answered with the same status get the same response. */
  lemma StatusDeterminesBody(a: ServiceError, b: ServiceError)
    requires HandleError(a).status == HandleError(b).status
    ensures HandleError(a) == HandleError(b)
  {
  }

  /** Out of stock and invalid items are not client errors at this layer: they surface as 500. */
  lemma CheckoutFailuresAreServerErrors(e: ServiceError)
    requires e in {OutOfStock, InvalidItem, Internal}
    ensures HandleError(e) == HandleError(Internal)
  {
  }
}
