/**
 * middleware/error.middleware.js: the last Express handler, a map from the
 * error that reached it (and NODE_ENV) to the response sent. Logging is
 * not part of this model.
 */
module ErrorMiddleware {
  import opened Wrappers
  import opened Http

  /** The fields of a thrown error the handler reads; `None` is `undefined`. */
  datatype AppError = AppError(
    name: string,
    message: string,
    statusCode: Option<int>,
    code: Option<string>,
    stack: Option<string>)

  const DEFAULT_MESSAGE := "Internal Server Error"

  /** `err.statusCode || 500`: an absent or zero status becomes 500. */
  function DefaultStatus(err: AppError): (s: int)
    ensures s != 0
    ensures s == 500 || (err.statusCode.Some? && s == err.statusCode.value)
    ensures err.statusCode.Some? && err.statusCode.value != 0 ==> s == err.statusCode.value
    ensures err.statusCode.None? || err.statusCode.value == 0 ==> s == 500
  {
    if err.statusCode.Some? && err.statusCode.value != 0 then err.statusCode.value else 500
  }

  /** `err.message || 'Internal Server Error'`. */
  function DefaultMessage(err: AppError): (m: string)
    ensures m != ""
    ensures m == DEFAULT_MESSAGE || m == err.message
    ensures err.message != "" ==> m == err.message
    ensures err.message == "" ==> m == DEFAULT_MESSAGE
  {
    if err.message != "" then err.message else DEFAULT_MESSAGE
  }

  /** The (status, message) pair after the name/code else-if chain. */
  function Classify(err: AppError): (r: (int, string))
    ensures r.0 != 0 && r.1 != ""
  {
    if err.name == "ValidationError" then (400, "Validation Error")
    else if err.name == "UnauthorizedError" then (401, "Unauthorized")
    else if err.code == Some("P2002") then (409, "Resource already exists")
    else (DefaultStatus(err), DefaultMessage(err))
  }

  /**
   * `errorHandler(err, req, res, next)`. Outside production the body also
   * carries `stack`; JSON drops it when the error has none.
   */
  function ErrorHandler(err: AppError, nodeEnv: Option<string>): (r: Response)
    ensures r.status == Classify(err).0
    ensures r.body.JObj? && "message" in r.body.fields
    ensures r.body.fields["message"] == JStr(Classify(err).1)
    ensures "stack" in r.body.fields <==> nodeEnv != Some("production") && err.stack.Some?
    ensures "stack" in r.body.fields ==> r.body.fields["stack"] == JStr(err.stack.value)
    ensures r.body.fields.Keys <= {"message", "stack"}
  {
    var (status, message) := Classify(err);
    var isDevelopment := nodeEnv != Some("production");
    var body := map["message" := JStr(message)];
    Response(status, JObj(if isDevelopment && err.stack.Some? then body["stack" := JStr(err.stack.value)] else body))
  }

  /** Every error reaching the handler is answered with a non-zero status and a non-empty message. */
  lemma AlwaysAnswers(err: AppError, nodeEnv: Option<string>)
    ensures ErrorHandler(err, nodeEnv).status != 0
    ensures ErrorHandler(err, nodeEnv).body.fields["message"] != JStr("")
  {
  }

  /** In production no stack trace leaves the server. */
  lemma ProductionHidesStack(err: AppError)
    ensures "stack" !in ErrorHandler(err, Some("production")).body.fields
    ensures ErrorHandler(err, Some("production")).body.fields.Keys == {"message"}
  {
  }

  /**
   * The name checks come before the code check: a `ValidationError` or
   * `UnauthorizedError` keeps its own status even with Prisma's P2002 code,
   * and the error's own status and message count only when none of the
   * three cases applies.
   */
  lemma ChainPrecedence(err: AppError)
    ensures err.name == "ValidationError" ==> Classify(err) == (400, "Validation Error")
    ensures err.name == "UnauthorizedError" ==> Classify(err) == (401, "Unauthorized")
    ensures err.code == Some("P2002") && err.name != "ValidationError" && err.name != "UnauthorizedError"
            ==> Classify(err) == (409, "Resource already exists")
    ensures err.name != "ValidationError" && err.name != "UnauthorizedError" && err.code != Some("P2002")
            ==> Classify(err) == (DefaultStatus(err), DefaultMessage(err))
    ensures Classify(err).0 !in {400, 401, 409} ==> Classify(err) == (DefaultStatus(err), DefaultMessage(err))
  {
  }

  /** An error with no status and no message is a plain 500. */
  lemma BareErrorIs500(name: string, code: Option<string>, stack: Option<string>)
    requires name != "ValidationError" && name != "UnauthorizedError" && code != Some("P2002")
    ensures Classify(AppError(name, "", None, code, stack)) == (500, DEFAULT_MESSAGE)
  {
  }
}
