/** The authenticated user of a request, the login username key and the access-token hook. */
module UserHttp {
  import opened Wrappers
  import opened Http
  import opened Users
  import opened Store
  import opened AccessTokens

  /** What a handler sees of a request: the user the authentication middleware attached, if any,
      and the values of its `Language` header, in order. */
  datatype Request = Request(authenticated: Option<User>, languageHeader: seq<string>) {
    function Objects(): set<object> {
      if authenticated.Some? then {authenticated.value} else {}
    }
  }

  /** The user after the `Language` override: the header's first value when there is one. */
  function WithLanguage(u: UserRecord, header: seq<string>): (v: UserRecord)
    ensures |header| > 0 ==> v.language == header[0]
    ensures |header| == 0 ==> v == u
    ensures v.(language := u.language) == u
  {
    if |header| > 0 then u.(language := header[0]) else u
  }

  /** `Request.user()`: the authenticated user, its language overwritten in place by the header. */
  method CurrentUser(req: Request) returns (r: Result<User, Failure>)
    modifies req.Objects()
    ensures req.authenticated.None? ==> r == Failure(NotAuthenticated)
    ensures req.authenticated.Some? ==> r == Success(req.authenticated.value)
    ensures req.authenticated.Some? ==>
      req.authenticated.value.Value() == WithLanguage(old(req.authenticated.value.Value()), req.languageHeader)
  {
    if req.authenticated.None? {
      return Failure(NotAuthenticated);
    }
    var user := req.authenticated.value;
    if |req.languageHeader| > 0 {
      user.language := req.languageHeader[0];
    }
    r := Success(user);
  }

  /** `usernameKey`: the login lookup compares the submitted username with `email`. */
  function UsernameQuery(username: string): (q: UserQuery)
    ensures forall u :: Holds(q, u) <==> u.email == username
  {
    EmailIs(username)
  }

  /** `accessToken(on:)`: the access payload with the default one-hour lifetime. */
  function AccessTokenOf(u: UserRecord, now: int): (r: Result<Payload, Failure>)
    ensures r.Failure? <==> u.id.None?
    ensures r.Success? ==> r.value.iat == now && r.value.exp == now + DefaultAccessLifetime
    ensures r.Success? ==> r.value.status == u.permissionLevel && r.value.id == u.id.value
  {
    NewPayload(u, now, DefaultAccessLifetime)
  }
}
