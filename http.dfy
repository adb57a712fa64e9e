/** HTTP vocabulary shared by the route handlers: statuses, methods and the ways a handler fails. */
module Http {

  datatype Status = Ok | NoContent | BadRequest | Unauthorized | NotFound | InternalServerError

  datatype Method = GET | POST | PUT | PATCH | DELETE

  /** Why a request handler did not produce its response. */
  datatype Failure =
    | Abort(status: Status, reason: string)  // `Abort(.status, reason: ...)` thrown by a handler
    | NotAuthenticated                       // `requireAuthenticated` found no user on the request
    | MissingId                              // `requireID()` on a model that has no database id
    | ModelNotFound(id: int)                 // a `User.parameter` route parameter names no stored user
    | TokenExpired                           // the expiration claim of a token is not in the future
    | TokenRejected                          // the token's signature or structure did not verify

  /** An email handed to the mail provider: template keys, addresses and interpolated values. */
  datatype Email = Email(
    body: string,
    subject: string,
    from: string,
    to: string,
    interpolations: map<string, string>)
}
