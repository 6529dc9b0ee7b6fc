/** The error-handling middleware: every error a controller passes on with
    `next(error)` ends here, and its `name` alone picks the status. */
module ErrorHandler {

  import opened Common

  /** An error thrown while handling a request. */
  datatype AppError = AppError(name: string, message: string)

  /** The response the handler writes: a status, and a body holding the
      chosen message and the original error. */
  datatype ErrorResponse = ErrorResponse(status: int, message: string, error: AppError)

  /** The error names that do not fall back to 500. */
  const KnownNames: set<string> := {"ValidationError", "UnauthorizedError", "ForbiddenError", "NotFound"}

  function Handle(err: AppError): (r: ErrorResponse)
    ensures r.error == err
    ensures r.status in {BAD_REQUEST, UNAUTHORIZED, FORBIDDEN, NOT_FOUND, INTERNAL_SERVER_ERROR}
    ensures r.status == BAD_REQUEST <==> err.name == "ValidationError"
    ensures r.status == BAD_REQUEST ==> r.message == err.message
    ensures r.status == UNAUTHORIZED <==> err.name == "UnauthorizedError"
    ensures r.status == UNAUTHORIZED ==> r.message == "Unauthorized"
    ensures r.status == FORBIDDEN <==> err.name == "ForbiddenError"
    ensures r.status == FORBIDDEN ==> r.message == "Forbidden"
    ensures r.status == NOT_FOUND <==> err.name == "NotFound"
    ensures r.status == NOT_FOUND ==> r.message == "Resource Not Found"
    ensures r.status == INTERNAL_SERVER_ERROR <==> err.name !in KnownNames
    ensures r.status == INTERNAL_SERVER_ERROR ==> r.message == "Internal Server Error"
  {
    if err.name == "ValidationError" then ErrorResponse(BAD_REQUEST, err.message, err)
    else if err.name == "UnauthorizedError" then ErrorResponse(UNAUTHORIZED, "Unauthorized", err)
    else if err.name == "ForbiddenError" then ErrorResponse(FORBIDDEN, "Forbidden", err)
    else if err.name == "NotFound" then ErrorResponse(NOT_FOUND, "Resource Not Found", err)
    else ErrorResponse(INTERNAL_SERVER_ERROR, "Internal Server Error", err)
  }

  /** Only a validation error's own message reaches the client: for every
      other name the status and message depend on the name alone. */
  lemma HandleIgnoresMessage(a: AppError, b: AppError)
    requires a.name == b.name && a.name != "ValidationError"
    ensures Handle(a).status == Handle(b).status && Handle(a).message == Handle(b).message
  {
  }

  /** The reply a controller's `next(error)` ends in. */
  function Raise<T>(err: AppError): (r: Reply<T>)
    ensures r.Refused?
    ensures r.status == Handle(err).status && r.message == Handle(err).message
  {
    var h := Handle(err);
    Refused(h.status, h.message)
  }

  // Errors the document store raises on `save()`.

  /** A document that breaks its schema: handled as 400 with the message. */
  function SchemaViolation(model: string): (e: AppError)
    ensures Handle(e).status == BAD_REQUEST
  {
    AppError("ValidationError", model + " validation failed")
  }

  /** A second document with the same value of a unique field: the store's
      server error, handled as 500. */
  function DuplicateKey(field: string): (e: AppError)
    ensures Handle(e).status == INTERNAL_SERVER_ERROR
  {
    AppError("MongoServerError", "E11000 duplicate key error: " + field)
  }
}
