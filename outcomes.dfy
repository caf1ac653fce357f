/** Values that travel between the request guards, the login strategy, the
    controllers and the store: JavaScript error values, what a collaborator
    call did, and the single way an Express handler ends. */
module Outcomes {

  datatype Option<+T> = None | Some(value: T)

  /** A JavaScript error value as it reaches `next(err)`, `done(err)` or a
      rejected promise. */
  datatype Error =
    | StatusError(statusCode: int, message: string)  // a plain `{ statusCode, message }` object
    | Exception(message: string)                     // an `Error` instance, constructed or thrown

  /** What a call into a collaborator (hashing, token checks, the database) did. */
  datatype Call<+T> = Returns(value: T) | Throws(error: Error)

  /** The claims a signed token carries: the user id it was minted for. */
  datatype Claims = Claims(id: int)

  /** The `{ valid, decoded }` / `{ valid: false, error }` result of a token check. */
  datatype Verified = Valid(decoded: Claims) | Invalid(reason: string)

  /** The user object that passport places on `req.user`: the login strategy
      yields `{ id }`, session deserialisation yields `{ id, email, role }`. */
  datatype UserObj = UserObj(id: int, email: Option<string>, role: Option<string>)

  /** JSON bodies the core sends. */
  datatype JsonBody =
    | Message(message: string)
    | Registered(userId: int, email: string, message: string)
    | TokenPair(accessToken: string, refreshToken: string)

  /** `res.sendStatus(code)` or `res.status(code).json(body)`. */
  datatype Reply = SendStatus(code: int) | Json(status: int, body: JsonBody)

  /** How one invocation of a handler ends: exactly one of calling `next()`,
      calling `next(err)`, answering the request, or rejecting its promise. */
  datatype Outcome =
    | CallNext
    | CallNextWith(error: Error)
    | Respond(reply: Reply)
    | Rejects(error: Error)
}
