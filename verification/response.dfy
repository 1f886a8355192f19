/** utils/response.js: the two response builders. */
module ResponseBuilders {
  import opened Http

  /** `successResponse(res, message, data = null, statusCode = 200)`. */
  function SuccessResponse(message: string, data: Json := JNull, statusCode: int := 200): (r: Response)
    ensures r.status == statusCode
    ensures r.body.JObj? && "message" in r.body.fields && r.body.fields["message"] == JStr(message)
    ensures "data" in r.body.fields <==> data != JNull
    ensures "data" in r.body.fields ==> r.body.fields["data"] == data
    ensures r.body.fields.Keys <= {"message", "data"}
  {
    var response := map["message" := JStr(message)];
    Response(statusCode, JObj(if data != JNull then response["data" := data] else response))
  }

  /** `errorResponse(res, message, statusCode = 500, errors = null)`; `errors` is kept only when truthy. */
  function ErrorResponse(message: string, statusCode: int := 500, errors: Json := JNull): (r: Response)
    ensures r.status == statusCode
    ensures r.body.JObj? && "message" in r.body.fields && r.body.fields["message"] == JStr(message)
    ensures "errors" in r.body.fields <==> Truthy(errors)
    ensures "errors" in r.body.fields ==> r.body.fields["errors"] == errors
    ensures r.body.fields.Keys <= {"message", "errors"}
  {
    var response := map["message" := JStr(message)];
    Response(statusCode, JObj(if Truthy(errors) then response["errors" := errors] else response))
  }

  /** The defaults: a bare success is a 200 holding only its message, a bare error a 500. */
  lemma Defaults(message: string)
    ensures SuccessResponse(message) == Response(200, MessageBody(message))
    ensures ErrorResponse(message) == Response(500, MessageBody(message))
  {
  }

  /**
   * The asymmetry between the two builders: `false`, `0` and `""` are
   * kept as success data but dropped as error details.
   */
  lemma FalsyPayloads(message: string, j: Json)
    requires j == JBool(false) || j == JNum(0) || j == JStr("")
    ensures "data" in SuccessResponse(message, j).body.fields
    ensures "errors" !in ErrorResponse(message, 500, j).body.fields
  {
  }
}
