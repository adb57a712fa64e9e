/** Access- and refresh-token payloads: built from a user and a clock reading, verified by
    their expiration claim only. Times are integer seconds since 1970. */
module AccessTokens {
  import opened Wrappers
  import opened Http
  import opened UserStatuses
  import opened Users

  /** One hour. */
  const DefaultAccessLifetime: int := 3600
  /** Thirty days. */
  const DefaultRefreshLifetime: int := 24 * 60 * 60 * 30

  datatype Payload = Payload(
    status: UserStatus,
    firstname: Option<string>,
    lastname: Option<string>,
    language: string,
    exp: int,
    iat: int,
    email: string,
    id: int)

  /** A refresh token carries the user's id and its two timestamps, and no permission level. */
  datatype RefreshToken = RefreshToken(id: int, iat: int, exp: int)

  /** `Payload.init(user:expiration:)`: profile fields and level copied, issued now, expiring
      `expiration` seconds later; fails for a user without an id. */
  function NewPayload(u: UserRecord, now: int, expiration: int): (r: Result<Payload, Failure>)
    ensures r.Failure? <==> u.id.None?
    ensures r.Failure? ==> r.error == MissingId
    ensures r.Success? ==>
      && r.value.iat == now && r.value.exp - r.value.iat == expiration && r.value.id == u.id.value
      && r.value.status == u.permissionLevel && r.value.firstname == u.firstname
      && r.value.lastname == u.lastname && r.value.language == u.language && r.value.email == u.email
  {
    if u.id.None? then Failure(MissingId)
    else Success(Payload(u.permissionLevel, u.firstname, u.lastname, u.language, now + expiration, now, u.email, u.id.value))
  }

  /** `RefreshToken.init(user:expiration:)`: the id and the two timestamps; fails without an id. */
  function NewRefreshToken(u: UserRecord, now: int, expiration: int): (r: Result<RefreshToken, Failure>)
    ensures r.Failure? <==> u.id.None?
    ensures r.Failure? ==> r.error == MissingId
    ensures r.Success? ==> r.value.id == u.id.value && r.value.iat == now && r.value.exp - r.value.iat == expiration
  {
    if u.id.None? then Failure(MissingId) else Success(RefreshToken(u.id.value, now, now + expiration))
  }

  /** The expiration claim check: a claim passes only while it lies in the future. */
  function VerifyNotExpired(exp: int, now: int): (r: Result<(), Failure>)
    ensures r.Success? <==> now < exp
    ensures r.Failure? ==> r.error == TokenExpired
  {
    if now < exp then Success(()) else Failure(TokenExpired)
  }

  /** `Payload.verify(using:)`: the expiration claim only; the signer plays no part. */
  function VerifyPayload(p: Payload, now: int): (r: Result<(), Failure>)
    ensures r.Success? <==> now < p.exp
    ensures r.Failure? ==> r.error == TokenExpired
  {
    VerifyNotExpired(p.exp, now)
  }

  /** `RefreshToken.verify(using:)`: the expiration claim only. */
  function VerifyRefreshToken(t: RefreshToken, now: int): (r: Result<(), Failure>)
    ensures r.Success? <==> now < t.exp
    ensures r.Failure? ==> r.error == TokenExpired
  {
    VerifyNotExpired(t.exp, now)
  }

  /** `JSON.verify(using:)`: accepts every JSON payload. */
  function VerifyJson(claims: map<string, string>): (r: Result<(), Failure>)
    ensures r.Success?
  {
    Success(())
  }

  /** A fresh access payload verifies for exactly one hour: at every time before `now + 3600`
      and at no time from then on. */
  lemma AccessPayloadLifetime(u: UserRecord, now: int, t: int)
    requires u.id.Some?
    ensures VerifyPayload(NewPayload(u, now, DefaultAccessLifetime).value, t).Success? <==> t < now + 3600
  {
  }

  /** A fresh refresh token verifies for exactly thirty days (2,592,000 seconds). */
  lemma RefreshTokenLifetime(u: UserRecord, now: int, t: int)
    requires u.id.Some?
    ensures VerifyRefreshToken(NewRefreshToken(u, now, DefaultRefreshLifetime).value, t).Success? <==> t < now + 2592000
  {
  }

  /** Two payloads for one user at one time differ only when the user's level, names, language
      or email differ: the payload reflects the user as it is when the payload is built. */
  lemma PayloadTracksLevel(u: UserRecord, level: UserStatus, now: int)
    requires u.id.Some?
    ensures NewPayload(u.(permissionLevel := level), now, DefaultAccessLifetime).value.status == level
    ensures NewPayload(u.(password := ""), now, DefaultAccessLifetime) == NewPayload(u, now, DefaultAccessLifetime)
  {
  }
}
