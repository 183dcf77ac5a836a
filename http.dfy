/**
 * The HTTP responses the handlers build, and the JSON values they carry.
 * Only the status and the body are modelled; header plumbing of the web
 * framework is not.
 */
module Http {
  datatype Json =
    | JNull
    | JBool(b: bool)
    | JInt(i: int)
    | JStr(s: string)
    | JArr(items: seq<Json>)
    | JObj(fields: seq<(string, Json)>)

  datatype Body = Empty | JsonBody(value: Json)

  datatype Response = Response(status: int, body: Body)

  const OK: int := 200
  const CREATED: int := 201
  const BAD_REQUEST: int := 400
  const UNAUTHORIZED: int := 401
  const NOT_FOUND: int := 404
  const INTERNAL_SERVER_ERROR: int := 500

  /** The `{"msg": text}` object several handlers answer with. */
  function Message(text: string): Json {
    JObj([("msg", JStr(text))])
  }
}
