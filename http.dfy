/** What an API handler sends back once Express's `res.status(..).json(..)` plumbing is
    abstracted away. */
module Http {

  /** Status 200 with a JSON body, or 400 / 500 with a body `{error: <message>}`. */
  datatype Reply<+T> = Json(body: T) | BadRequest(error: string) | ServerError(error: string)

  /** The body `{ok: true}` of a successful write. */
  datatype Ack = OkTrue
}
