/** What a route answers: an HTTP status and a body, text or JSON. */
module Http {
  import opened Json

  datatype Response = Response(status: nat, body: Value)

  /** A plain-text answer such as `return "OK", 200`. */
  function Text(status: nat, message: string): Response {
    Response(status, Str(message))
  }

  /** jsonify({"error": message}) with the given status. */
  function Error(status: nat, message: string): Response {
    Response(status, Obj([("error", Str(message))]))
  }

  /** An exception the handler does not catch: the framework's own 500 page. */
  function Crash(): Response {
    Text(500, "Internal Server Error")
  }
}
