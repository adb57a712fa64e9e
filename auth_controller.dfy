/** Account lifecycle handlers: register, activate, new password, login and access-token refresh. */
module AuthController {
  import opened Wrappers
  import opened Http
  import opened UserStatuses
  import opened Users
  import opened Store
  import opened UserResponses
  import opened AccessTokens
  import opened UserHttp
  import Text

  /** Where activation links point and who sends the mails. */
  datatype AppConfig = AppConfig(emailURL: string, emailFrom: string)

  /** The md5 hex digest of the current date's description: 32 characters. */
  type Md5Hex = s: string | |s| == 32 witness "00000000000000000000000000000000"

  const EmailTaken := "This email is already registered."
  const NoUserWithCode := "No user found with the given code."
  const AlreadyActivated := "User already activated."
  const NotActivated := "User is not activated."

  function NoUserWithEmail(email: string): string {
    "No user found with email '" + email + "'."
  }

  function NoUserWithId(id: int): string {
    "No user found with ID '" + Text.IntToDecimal(id) + "'."
  }

  /** The mail asking a new user to confirm the account, linking to `emailURL + code`. */
  function ActivationEmail(config: AppConfig, u: UserRecord, code: string): (e: Email)
    ensures e.to == u.email && e.interpolations == map["url" := config.emailURL + code]
  {
    Email("email.activation.text", "email.activation.title", config.emailFrom, u.email, map["url" := config.emailURL + code])
  }

  /** The mail carrying a newly generated password. */
  function PasswordEmail(config: AppConfig, email: string, password: string): (e: Email)
    ensures e.to == email && e.interpolations == map["password" := password]
  {
    Email("email.password.text", "email.password.title", config.emailFrom, email, map["password" := password])
  }

  // ----- register -----

  /** The row `register` saves: the body with its password hashed and the email code set; a body
      without an id gets the next one. Everything else the caller sent is kept as sent. */
  function Registered(body: UserRecord, code: string, hash: string -> string, nextId: int): (u: UserRecord)
    ensures u.password == hash(body.password) && u.emailCode == Some(code)
    ensures u.id == (if body.id.None? then Some(nextId) else body.id)
    ensures u.(password := body.password, emailCode := body.emailCode, id := body.id) == body
  {
    body.(emailCode := Some(code), password := hash(body.password), id := if body.id.None? then Some(nextId) else body.id)
  }

  /** `register`: refuse an email some stored user already has; otherwise hash the password, set the
      email code, save, mail the activation link unless the user is already confirmed, and answer
      with the profile response. */
  method Register(db: Database, body: User, code: Md5Hex, hash: string -> string, config: AppConfig)
    returns (r: Result<UserSuccessResponse, Failure>, sent: Option<Email>)
    requires db.Valid()
    modifies db, body
    ensures db.Valid() && db.attributes == old(db.attributes)
    ensures First(old(db.users), EmailIs(old(body.email))).Some? ==>
      r == Failure(Abort(BadRequest, EmailTaken)) && sent == None && db.users == old(db.users)
    ensures First(old(db.users), EmailIs(old(body.email))).None? ==>
      && body.Value() == Registered(old(body.Value()), code, hash, old(db.nextUserId))
      && (old(body.id).None? ==> db.users == old(db.users) + [body.Value()])
      && (old(body.id).Some? ==> db.users == Replaced(old(db.users), body.Value()))
      && sent == (if body.confirmed then None else Some(ActivationEmail(config, body.Value(), code)))
      && r == Respond(body.Value(), db.attributes, true) && r.Success?
  {
    if First(db.users, EmailIs(body.email)).Some? {
      return Failure(Abort(BadRequest, EmailTaken)), None;
    }
    body.emailCode := Some(code);
    body.password := hash(body.password);
    var saved := db.SaveUser(body.Value());
    body.id := saved.id;
    var url := config.emailURL + code;
    if !body.confirmed {
      sent := Some(Email("email.activation.text", "email.activation.title", config.emailFrom, body.email, map["url" := url]));
    } else {
      sent := None;
    }
    r := Respond(body.Value(), db.attributes, true);
  }

  /** A registration body may set its own level and confirmation: `register` stores both as sent. */
  lemma RegisterKeepsSuppliedLevel(body: UserRecord, code: string, hash: string -> string, nextId: int)
    ensures Registered(body, code, hash, nextId).permissionLevel == body.permissionLevel
    ensures Registered(body, code, hash, nextId).confirmed == body.confirmed
  {
  }

  // ----- activate -----

  /** The activated user: confirmed, no email code, nothing else changed. */
  function Activated(u: UserRecord): (v: UserRecord)
    ensures v.confirmed && v.emailCode.None?
    ensures v.(confirmed := u.confirmed, emailCode := u.emailCode) == u
  {
    u.(confirmed := true, emailCode := None)
  }

  /** `activate` on the users table: the first user with the code, unless there is none or it is
      already confirmed, becomes activated. */
  function Activation(users: seq<UserRecord>, code: string): (r: Result<seq<UserRecord>, Failure>)
    ensures First(users, EmailCodeIs(code)).None? ==> r == Failure(Abort(BadRequest, NoUserWithCode))
    ensures First(users, EmailCodeIs(code)).Some? ==>
      var i := First(users, EmailCodeIs(code)).value;
      (users[i].confirmed ==> r == Failure(Abort(BadRequest, AlreadyActivated))) &&
      (!users[i].confirmed ==> r == Success(users[i := Activated(users[i])]))
  {
    match First(users, EmailCodeIs(code))
    case None => Failure(Abort(BadRequest, NoUserWithCode))
    case Some(i) =>
      if users[i].confirmed then Failure(Abort(BadRequest, AlreadyActivated))
      else Success(users[i := Activated(users[i])])
  }

  /** After an activation, the same code can only reach a later user that shares it: the user just
      activated is never found again. */
  lemma ActivationNeverRepeats(users: seq<UserRecord>, code: string)
    requires Activation(users, code).Success?
    ensures var i := First(users, EmailCodeIs(code)).value;
            var again := First(Activation(users, code).value, EmailCodeIs(code));
            again.None? || again.value > i
  {
    var i := First(users, EmailCodeIs(code)).value;
    var after := Activation(users, code).value;
    assert forall j :: 0 <= j <= i ==> !Holds(EmailCodeIs(code), after[j]);
  }

  /** When no other user shares the code, a second activation with it fails. */
  lemma SecondActivationFails(users: seq<UserRecord>, code: string)
    requires Activation(users, code).Success?
    requires forall i, j :: 0 <= i < j < |users| && users[i].emailCode == Some(code) ==> users[j].emailCode != Some(code)
    ensures Activation(Activation(users, code).value, code) == Failure(Abort(BadRequest, NoUserWithCode))
  {
    var i := First(users, EmailCodeIs(code)).value;
    var after := Activation(users, code).value;
    assert forall j :: 0 <= j < |after| ==> !Holds(EmailCodeIs(code), after[j]) by {
      forall j | 0 <= j < |after| ensures !Holds(EmailCodeIs(code), after[j]) {
        if j < i {
          assert after[j] == users[j];
        } else if j > i {
          assert after[j] == users[j];
        }
      }
    }
  }

  /** `activate`: look the code up, refuse an unknown code or a confirmed user, otherwise set
      `confirmed` and clear the code on that user and save it. */
  method Activate(db: Database, code: string) returns (r: Result<UserSuccessResponse, Failure>)
    requires db.Valid()
    modifies db
    ensures db.Valid() && db.attributes == old(db.attributes)
    ensures Activation(old(db.users), code).Failure? ==>
      r == Failure(Activation(old(db.users), code).error) && db.users == old(db.users)
    ensures Activation(old(db.users), code).Success? ==>
      && db.users == Activation(old(db.users), code).value
      && r == Success(UserSuccessResponse("success",
           ResponseOf(Activated(old(db.users)[First(old(db.users), EmailCodeIs(code)).value]), None)))
  {
    var found := First(db.users, EmailCodeIs(code));
    if found.None? {
      return Failure(Abort(BadRequest, NoUserWithCode));
    }
    var user := new User.Load(db.users[found.value]);
    if user.confirmed {
      return Failure(Abort(BadRequest, AlreadyActivated));
    }
    user.confirmed := true;
    user.emailCode := None;
    ReplacedAt(db.users, db.nextUserId, found.value, user.Value());
    db.UpdateUser(user.Value());
    r := Respond(user.Value(), db.attributes, false);
  }

  // ----- newPassword -----

  /** The generated password: the first eight characters of the digest. */
  function GeneratedPassword(code: Md5Hex): (p: string)
    ensures |p| == 8 && p == code[..8]
  {
    code[..8]
  }

  /** `newPassword` on the users table: the first user with the email, if confirmed, gets the hash
      of the generated password and nothing else changes. */
  function PasswordReset(users: seq<UserRecord>, email: string, code: Md5Hex, hash: string -> string)
    : (r: Result<seq<UserRecord>, Failure>)
    ensures First(users, EmailIs(email)).None? ==> r == Failure(Abort(BadRequest, NoUserWithEmail(email)))
    ensures First(users, EmailIs(email)).Some? ==>
      var i := First(users, EmailIs(email)).value;
      (!users[i].confirmed ==> r == Failure(Abort(BadRequest, NotActivated))) &&
      (users[i].confirmed ==> r == Success(users[i := users[i].(password := hash(GeneratedPassword(code)))]))
  {
    match First(users, EmailIs(email))
    case None => Failure(Abort(BadRequest, NoUserWithEmail(email)))
    case Some(i) =>
      if !users[i].confirmed then Failure(Abort(BadRequest, NotActivated))
      else Success(users[i := users[i].(password := hash(GeneratedPassword(code)))])
  }

  /** A reset succeeds only for a confirmed user, and the stored hash is the hash of the password
      that is mailed, so the mailed password is the one that now logs in; the password of that
      user is the only thing in the table that changes. */
  lemma PasswordResetStoresMailedPassword(users: seq<UserRecord>, email: string, code: Md5Hex, hash: string -> string, config: AppConfig)
    requires PasswordReset(users, email, code, hash).Success?
    ensures var i := First(users, EmailIs(email)).value;
            && users[i].confirmed && users[i].email == email
            && PasswordReset(users, email, code, hash).value[i].password
               == hash(PasswordEmail(config, email, GeneratedPassword(code)).interpolations["password"])
    ensures var i := First(users, EmailIs(email)).value;
            var after := PasswordReset(users, email, code, hash).value;
            && |after| == |users|
            && after[i].(password := users[i].password) == users[i]
            && forall j :: 0 <= j < |users| && j != i ==> after[j] == users[j]
  {
  }

  /** `newPassword`: look the email up, refuse an unknown email or an unconfirmed user, otherwise
      store the hash of the first eight digest characters; mail the password when a mail key is
      configured. */
  method NewPassword(db: Database, email: string, code: Md5Hex, hash: string -> string,
                     mailConfigured: bool, config: AppConfig)
    returns (r: Result<UserSuccessResponse, Failure>, sent: Option<Email>)
    requires db.Valid()
    modifies db
    ensures db.Valid() && db.attributes == old(db.attributes)
    ensures PasswordReset(old(db.users), email, code, hash).Failure? ==>
      r == Failure(PasswordReset(old(db.users), email, code, hash).error) && sent == None && db.users == old(db.users)
    ensures PasswordReset(old(db.users), email, code, hash).Success? ==>
      var i := First(old(db.users), EmailIs(email)).value;
      && db.users == PasswordReset(old(db.users), email, code, hash).value
      && r == Success(UserSuccessResponse("success", ResponseOf(db.users[i], None)))
      && sent == (if mailConfigured then Some(PasswordEmail(config, email, GeneratedPassword(code))) else None)
  {
    var found := First(db.users, EmailIs(email));
    if found.None? {
      return Failure(Abort(BadRequest, NoUserWithEmail(email))), None;
    }
    var user := new User.Load(db.users[found.value]);
    if user.confirmed == false {
      return Failure(Abort(BadRequest, NotActivated)), None;
    }
    var password := code[..8];
    user.password := hash(password);
    ReplacedAt(db.users, db.nextUserId, found.value, user.Value());
    var saved := db.SaveUser(user.Value());
    if !mailConfigured {
      return Respond(saved, db.attributes, false), None;
    }
    sent := Some(Email("email.password.text", "email.password.title", config.emailFrom, email, map["password" := password]));
    r := Respond(saved, db.attributes, false);
  }

  // ----- refreshAccessToken -----

  /** The access payload `refreshAccessToken` signs: the refresh token must have verified and not
      expired, and the payload is built from the user stored under the token's id now, with the
      default lifetime. `token` is the outcome of decoding the token and checking its signature. */
  function RefreshPayload(users: seq<UserRecord>, token: Result<RefreshToken, Failure>, now: int): (r: Result<Payload, Failure>)
    ensures token.Failure? ==> r == Failure(token.error)
    ensures token.Success? && now >= token.value.exp ==> r == Failure(TokenExpired)
    ensures token.Success? && now < token.value.exp && First(users, IdIs(token.value.id)).None? ==>
      r == Failure(Abort(BadRequest, NoUserWithId(token.value.id)))
    ensures r.Success? ==>
      && token.Success? && now < token.value.exp && First(users, IdIs(token.value.id)).Some?
      && var u := users[First(users, IdIs(token.value.id)).value];
         r == NewPayload(u, now, DefaultAccessLifetime) && r.value.status == u.permissionLevel && r.value.id == token.value.id
  {
    match token
    case Failure(e) => Failure(e)
    case Success(t) =>
      match VerifyRefreshToken(t, now)
      case Failure(e) => Failure(e)
      case Success(_) =>
        match First(users, IdIs(t.id))
        case None => Failure(Abort(BadRequest, NoUserWithId(t.id)))
        case Some(i) => NewPayload(users[i], now, DefaultAccessLifetime)
  }

  /** `refreshAccessToken`: `{status: "success", accessToken}` with the token issued for the rebuilt
      payload. `issue` stands for merging the data providers' claims and signing. */
  function RefreshAccessToken(users: seq<UserRecord>, token: Result<RefreshToken, Failure>, now: int,
                              issue: Payload -> string): (r: Result<map<string, string>, Failure>)
    ensures r.Success? <==> RefreshPayload(users, token, now).Success?
    ensures r.Failure? ==> r.error == RefreshPayload(users, token, now).error
    ensures r.Success? ==>
      r.value == map["status" := "success", "accessToken" := issue(RefreshPayload(users, token, now).value)]
  {
    match RefreshPayload(users, token, now)
    case Failure(e) => Failure(e)
    case Success(p) => Success(map["status" := "success", "accessToken" := issue(p)])
  }

  /** A refresh builds its payload from the row stored under the token's id at refresh time: if
      that row is replaced (the id kept), the new row is what the payload reflects. */
  lemma RefreshUsesStoredUser(users: seq<UserRecord>, nextId: int, i: nat, row: UserRecord, t: RefreshToken, now: int)
    requires UsersStored(users, nextId) && i < |users|
    requires users[i].id == Some(t.id) && row.id == users[i].id && now < t.exp
    ensures RefreshPayload(users[i := row], Success(t), now) == NewPayload(row, now, DefaultAccessLifetime)
  {
    var current := users[i := row];
    assert Holds(IdIs(t.id), current[i]);
  }

  /** In particular the level in the refreshed payload is the level stored now, whatever level the
      user had when the refresh token was issued. */
  lemma RefreshUsesCurrentLevel(users: seq<UserRecord>, nextId: int, i: nat, level: UserStatus, t: RefreshToken, now: int)
    requires UsersStored(users, nextId) && i < |users|
    requires users[i].id == Some(t.id) && now < t.exp
    ensures var current := users[i := users[i].(permissionLevel := level)];
            RefreshPayload(current, Success(t), now).Success? &&
            RefreshPayload(current, Success(t), now).value.status == level
  {
    RefreshUsesStoredUser(users, nextId, i, users[i].(permissionLevel := level), t, now);
  }

  // ----- status -----

  /** `status`: the authenticated user (language header applied), without attributes; a request
      the middleware did not authenticate is refused. */
  method StatusOf(req: Request) returns (r: Result<UserSuccessResponse, Failure>)
    modifies req.Objects()
    ensures req.authenticated.None? ==> r == Failure(NotAuthenticated)
    ensures req.authenticated.Some? ==>
      var caller := WithLanguage(old(req.authenticated.value.Value()), req.languageHeader);
      && req.authenticated.value.Value() == caller
      && r == Success(UserSuccessResponse("success", ResponseOf(caller, None)))
  {
    var current := CurrentUser(req);
    if current.Failure? {
      return Failure(current.error);
    }
    r := Respond(current.value.Value(), [], false);
  }

  // ----- login -----

  datatype LoginResponse = LoginResponse(status: string, accessToken: string, refreshToken: string, user: UserResponse)

  /** `login`: for the user the authentication middleware found, an access token (default one-hour
      payload, issued through `issueAccess`), a refresh token (id only, thirty days) and the
      response without attributes. */
  function Login(authenticated: Option<UserRecord>, now: int, issueAccess: Payload -> string,
                 signRefresh: RefreshToken -> string): (r: Result<LoginResponse, Failure>)
    ensures authenticated.None? ==> r == Failure(NotAuthenticated)
    ensures authenticated.Some? ==> (r.Failure? <==> authenticated.value.id.None?)
    ensures authenticated.Some? && r.Failure? ==> r.error == MissingId
    ensures r.Success? ==>
      var u := authenticated.value;
      && r.value.status == "success"
      && r.value.accessToken == issueAccess(NewPayload(u, now, DefaultAccessLifetime).value)
      && r.value.refreshToken == signRefresh(RefreshToken(u.id.value, now, now + DefaultRefreshLifetime))
      && r.value.user == ResponseOf(u, None)
  {
    match authenticated
    case None => Failure(NotAuthenticated)
    case Some(u) =>
      match NewPayload(u, now, DefaultAccessLifetime)
      case Failure(e) => Failure(e)
      case Success(payload) =>
        match NewRefreshToken(u, now, DefaultRefreshLifetime)
        case Failure(e) => Failure(e)
        case Success(refresh) =>
          Success(LoginResponse("success", issueAccess(payload), signRefresh(refresh), ResponseOf(u, None)))
  }
}
