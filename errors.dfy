/**
 * The four failures the application turns into JSON error envelopes, the
 * outcome type every route handler returns, and the registered error
 * handlers (`@app.errorhandler(400 | 404 | 422 | 500)`).
 */
module Errors {
  import opened Wrappers

  /** `abort(400)`, `abort(404)`, `abort(422)` and an uncaught exception (500). */
  datatype HttpError = BadRequest | NotFound | Unprocessable | ServerError {

    /** The HTTP status code the failure is reported with. */
    function Code(): int {
      match this
      case BadRequest => 400
      case NotFound => 404
      case Unprocessable => 422
      case ServerError => 500
    }
  }

  /** What a route handler produces: its JSON body, or an aborted request. */
  datatype Result<+T> = Ok(value: T) | Fail(error: HttpError)

  /**
   * A JSON error body `{"success": false, "error": code, key: text}`; `key`
   * is the name of the message field, which differs between handlers.
   */
  datatype ErrorEnvelope = ErrorEnvelope(success: bool, error: int, key: string, text: string)

  /** The failure whose handler is registered for `code`, if any. */
  function ErrorOfCode(code: int): (e: Option<HttpError>)
    ensures e.Some? ==> e.value.Code() == code
    ensures e.None? <==> code != 400 && code != 404 && code != 422 && code != 500
  {
    if code == 400 then Some(BadRequest)
    else if code == 404 then Some(NotFound)
    else if code == 422 then Some(Unprocessable)
    else if code == 500 then Some(ServerError)
    else None
  }

  /** The body each registered error handler returns. */
  function Envelope(e: HttpError): (env: ErrorEnvelope)
    ensures !env.success
    ensures env.error == e.Code()
    ensures env.key == "message" <==> e == BadRequest
    ensures env.key == "messages" <==> e != BadRequest
    ensures e == NotFound ==> env.text == "resource not found"
    ensures e == BadRequest ==> env.text == "bad request"
    ensures e == Unprocessable ==>
      env.text == "You are trying to delete a question that does not exists in the database."
    ensures e == ServerError ==> env.text == "Internal server error."
  {
    match e
    case NotFound => ErrorEnvelope(false, 404, "messages", "resource not found")
    case BadRequest => ErrorEnvelope(false, 400, "message", "bad request")
    case Unprocessable =>
      ErrorEnvelope(false, 422, "messages",
                    "You are trying to delete a question that does not exists in the database.")
    case ServerError => ErrorEnvelope(false, 500, "messages", "Internal server error.")
  }

  /**
   * Error handling as Flask dispatches it: a status code reaches a handler of
   * this application only if one is registered for it; the envelope carries
   * that same code.
   */
  function HandleError(code: int): (r: Option<ErrorEnvelope>)
    ensures r.Some? <==> code in {400, 404, 422, 500}
    ensures r.Some? ==> r.value.error == code && !r.value.success
  {
    match ErrorOfCode(code)
    case Some(e) => Some(Envelope(e))
    case None => None
  }

  /** Every failure a handler raises is caught by its own registered handler. */
  lemma EveryFailureIsHandled(e: HttpError)
    ensures ErrorOfCode(e.Code()) == Some(e)
    ensures HandleError(e.Code()) == Some(Envelope(e))
  {
  }

  /** No two failures share a status code, so each envelope identifies its failure. */
  lemma CodesAreDistinct(e1: HttpError, e2: HttpError)
    requires e1.Code() == e2.Code()
    ensures e1 == e2
  {
  }
}
