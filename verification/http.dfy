/** The HTTP-facing values the handlers and middleware produce. */
module Http {

  /** A JSON value as Express serialises it. */
  datatype Json =
    | JNull
    | JBool(b: bool)
    | JNum(n: int)
    | JStr(s: string)
    | JArr(items: seq<Json>)
    | JObj(fields: map<string, Json>)

  /** JavaScript truthiness of a JSON value (null, false, 0 and "" are falsy). */
  predicate Truthy(j: Json) {
    match j
    case JNull => false
    case JBool(b) => b
    case JNum(n) => n != 0
    case JStr(s) => s != ""
    case _ => true
  }

  /** What `res.status(code).json(body)` sends. */
  datatype Response = Response(status: int, body: Json)

  /** The `{ message }` body that most handlers send. */
  function MessageBody(message: string): Json {
    JObj(map["message" := JStr(message)])
  }

  /**
   * How an async route handler ends: it sends a response, or an exception
   * escapes it and is left to the framework.
   */
  datatype Outcome = Replied(response: Response) | Threw(message: string)
}
