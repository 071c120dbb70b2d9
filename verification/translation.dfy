/** How the handler turns what it learned into its own response: the error
    bodies it writes, the catch-all for exceptions, and the relaying of the
    try-on service's answer. */
module Translation {
  import opened Wrappers
  import opened JsValues

  const UnknownErrorMessage: string := "Error desconocido"

  /** A response: a status code and the JSON value written as the body. */
  datatype Response = Response(status: int, body: JsValue)

  /** The `{ error: message }` body of every response the handler words itself. */
  function ErrorBody(message: string): (r: JsValue)
    ensures r.Obj? && r.props.Keys == {"error"} && r.props["error"] == Str(message)
  {
    Obj(map["error" := Str(message)])
  }

  /** The message an exception is reported with: an `Error`'s own message, or
      the fixed "unknown error" text for anything else that was thrown. */
  function ErrorMessage(e: Thrown): (r: string)
    ensures e.ErrorInstance? ==> r == e.message
    ensures e.NonError? ==> r == UnknownErrorMessage
  {
    match e
    case ErrorInstance(_, message) => message
    case NonError(_) => UnknownErrorMessage
  }

  /** The catch block: status 500 and the exception's message. */
  function Caught(e: Thrown): (r: Response)
    ensures r.status == 500
    ensures r.body == ErrorBody(ErrorMessage(e))
  {
    Response(500, ErrorBody(ErrorMessage(e)))
  }

  /** What the POST to the try-on service produced: a response whose status
      is known and whose body either parsed as JSON or made `json()` throw,
      or an exception from the request itself. */
  datatype Upstream =
    | Replied(status: int, json: Result<JsValue, Thrown>)
    | RequestFailed(error: Thrown)

  /** `Response.ok`: the status is in the range 200-299. */
  predicate IsOk(status: int)
  {
    200 <= status <= 299
  }

  /** The handler's answer to the service's outcome. */
  function Translate(u: Upstream): (r: Response)
    ensures u.Replied? && u.json.Success? && !IsOk(u.status) ==> r == Response(u.status, u.json.value)
    ensures u.Replied? && u.json.Success? && IsOk(u.status) ==> r == Response(200, u.json.value)
    ensures u.Replied? && u.json.Failure? ==> r == Caught(u.json.error)
    ensures u.RequestFailed? ==> r == Caught(u.error)
    ensures r.status == 200 || r.status == 500 || (u.Replied? && r.status == u.status && !IsOk(r.status))
  {
    match u
    case RequestFailed(e) => Caught(e)
    case Replied(status, json) =>
      match json
      case Failure(e) => Caught(e)
      case Success(body) => if !IsOk(status) then Response(status, body) else Response(200, body)
  }

  /** Whatever the service answered with a JSON body, that body is what the
      caller receives; only the status can differ, and only by a 2xx
      becoming 200. */
  lemma BodyPassesThrough(status: int, body: JsValue)
    ensures Translate(Replied(status, Success(body))).body == body
    ensures Translate(Replied(status, Success(body))).status == (if IsOk(status) then 200 else status)
  {
  }
}
