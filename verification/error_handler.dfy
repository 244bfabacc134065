/** The Express error middleware: for a thrown value, either hand it on to
    the next handler or answer with a status and a JSON body. Logging is
    left out; the stack of a newly created `Error` is a parameter. */
module ErrorHandler {
  import opened Results
  import opened Js

  /** A thrown value: an `Error` with its message, its stack (if any) and
      its `statusCode` property, or any other value. */
  datatype Thrown =
    | ErrorValue(message: string, stack: Option<string>, statusCode: JsValue)
    | OtherValue(value: JsValue)

  /** The status and the JSON body as serialized: a property holding
      `undefined` does not appear. */
  datatype Response = Response(status: int, body: map<string, JsValue>)

  datatype Handled =
    | PassedOn(err: Thrown)
    | Responded(response: Response)

  const UnknownError := "Unknown error occurred"
  const DefaultMessage := "Internal Server Error"
  const DefaultStatus := 500
  const NotFoundStatus := 404

  /** The thrown value as an error: an `Error` stays as it is, anything else
      becomes a new error reading "Unknown error occurred" with no status code. */
  function AsError(err: Thrown, freshStack: string): (e: Thrown)
    ensures e.ErrorValue?
    ensures err.ErrorValue? ==> e == err
    ensures err.OtherValue? ==> e.message == UnknownError && e.statusCode == Undefined
  {
    if err.ErrorValue? then err else ErrorValue(UnknownError, Some(freshStack), Undefined)
  }

  /** The status to answer with: the error's status code when it is a
      non-zero number, 500 otherwise. */
  function StatusOf(statusCode: JsValue): (status: int)
    ensures statusCode.Num? && statusCode.n != 0 ==> status == statusCode.n
    ensures !statusCode.Num? || statusCode.n == 0 ==> status == DefaultStatus
  {
    if Truthy(statusCode) && statusCode.Num? then statusCode.n else DefaultStatus
  }

  /** `errorHandler`: `nodeEnv` is `process.env.NODE_ENV`, `None` when unset. */
  function HandleError(err: Thrown, headersSent: bool, nodeEnv: Option<string>, freshStack: string): (h: Handled)
    ensures headersSent <==> h.PassedOn?
    ensures headersSent ==> h.err == err
    ensures !headersSent ==> "message" in h.response.body
    ensures !headersSent && err.OtherValue? ==>
      && h.response.status == DefaultStatus
      && h.response.body["message"] == Str(UnknownError)
    ensures !headersSent && err.ErrorValue? ==>
      && h.response.status == (if err.statusCode.Num? && err.statusCode.n != 0 then err.statusCode.n else DefaultStatus)
      && h.response.body["message"] == Str(if err.message == "" then DefaultMessage else err.message)
    ensures !headersSent ==>
      && h.response.body.Keys <= {"message", "stack"}
      && h.response.body["message"].Str? && h.response.body["message"].s != ""
      && ("stack" in h.response.body <==> nodeEnv != Some("production") && AsError(err, freshStack).stack.Some?)
  {
    if headersSent then PassedOn(err)
    else
      var e := AsError(err, freshStack);
      var message := if e.message != "" then e.message else DefaultMessage;
      var body := map["message" := Str(message)];
      var body := if nodeEnv != Some("production") && e.stack.Some? then body["stack" := Str(e.stack.value)] else body;
      Responded(Response(StatusOf(e.statusCode), body))
  }

  /** `notFoundHandler`: an error naming the route, with status code 404. */
  function NotFound(originalUrl: string, stack: Option<string>): Thrown {
    ErrorValue("Route " + originalUrl + " not found", stack, Num(NotFoundStatus))
  }

  /** An unknown route is answered with 404 and the route's name. */
  lemma UnknownRouteAnswers404(originalUrl: string, stack: Option<string>, nodeEnv: Option<string>, freshStack: string)
    ensures var h := HandleError(NotFound(originalUrl, stack), false, nodeEnv, freshStack);
      && h.Responded?
      && h.response.status == NotFoundStatus
      && h.response.body["message"] == Str("Route " + originalUrl + " not found")
  {
  }

  /** In production no stack trace ever reaches the client. */
  lemma ProductionHidesStack(err: Thrown, freshStack: string)
    ensures var h := HandleError(err, false, Some("production"), freshStack);
      h.Responded? && "stack" !in h.response.body
  {
  }
}
