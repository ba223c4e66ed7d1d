/** The HTTP answers Express handlers send: a status code and a JSON body. */
module Http {
  import opened Json

  datatype Response = Response(status: nat, body: Json)

  /** `res.json(body)`: status 200. */
  function Ok(body: Json): Response {
    Response(200, body)
  }

  /** `res.status(status).json({ error: message })`. */
  function Failure(status: nat, message: string): Response {
    Response(status, JObj(map["error" := JStr(message)]))
  }
}
