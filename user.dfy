/** The user model: the stored row, the mutable model object the handlers work on,
    its initialisers and its JSON decoding with defaults. */
module Users {
  import opened Wrappers
  import opened Http
  import opened UserStatuses

  /** One row of the `users` table. Timestamps are integer seconds. */
  datatype UserRecord = UserRecord(
    id: Option<int>,
    firstname: Option<string>,
    lastname: Option<string>,
    email: string,
    password: string,
    language: string,
    emailCode: Option<string>,
    confirmed: bool,
    permissionLevel: UserStatus,
    deletedAt: Option<int>)

  /** A user model instance. Handlers assign its fields and then save it. */
  class User {
    var id: Option<int>
    var firstname: Option<string>
    var lastname: Option<string>
    var email: string
    var password: string
    var language: string
    var emailCode: Option<string>
    var confirmed: bool
    var permissionLevel: UserStatus
    var deletedAt: Option<int>

    /** The row this instance would be saved as. */
    function Value(): UserRecord
      reads this
    {
      UserRecord(id, firstname, lastname, email, password, language, emailCode, confirmed, permissionLevel, deletedAt)
    }

    /** `init(_ email:_ language:)`: empty password, standard level (id 2, whatever the doc comment
        says about level 0), confirmed exactly when email confirmation is off, everything else nil. */
    constructor (email: string, language: string, emailConfirmation: bool)
      ensures Value() == UserRecord(None, None, None, email, "", language, None, !emailConfirmation, Standard, None)
    {
      this.id := None;
      this.firstname := None;
      this.lastname := None;
      this.email := email;
      this.password := "";
      this.language := language;
      this.emailCode := None;
      this.confirmed := !emailConfirmation;
      this.permissionLevel := Standard;
      this.deletedAt := None;
    }

    /** The convenience initialiser: names and email code as given, and the hash of the password. */
    constructor WithPassword(email: string, language: string, firstName: Option<string>, lastName: Option<string>,
                             password: string, emailCode: string, emailConfirmation: bool, hash: string -> string)
      ensures Value() == UserRecord(None, firstName, lastName, email, hash(password), language, Some(emailCode),
                                    !emailConfirmation, Standard, None)
    {
      this.id := None;
      this.firstname := firstName;
      this.lastname := lastName;
      this.email := email;
      this.password := hash(password);
      this.language := language;
      this.emailCode := Some(emailCode);
      this.confirmed := !emailConfirmation;
      this.permissionLevel := Standard;
      this.deletedAt := None;
    }

    /** An instance holding a row fetched from the database. */
    constructor Load(row: UserRecord)
      ensures Value() == row
    {
      this.id := row.id;
      this.firstname := row.firstname;
      this.lastname := row.lastname;
      this.email := row.email;
      this.password := row.password;
      this.language := row.language;
      this.emailCode := row.emailCode;
      this.confirmed := row.confirmed;
      this.permissionLevel := row.permissionLevel;
      this.deletedAt := row.deletedAt;
    }
  }

  /** A JSON user body: every key may be missing. A present `permissionLevel` has already been
      decoded through the status registry. */
  datatype UserJson = UserJson(
    id: Option<int>,
    firstname: Option<string>,
    lastname: Option<string>,
    email: Option<string>,
    password: Option<string>,
    language: Option<string>,
    emailCode: Option<string>,
    confirmed: Option<bool>,
    permissionLevel: Option<UserStatus>,
    deletedAt: Option<int>)

  /** Decoding stops at the first required key that is missing. */
  datatype DecodingError = KeyNotFound(key: string)

  /** `init(from:)`: `email` and then `password` are required; `language` defaults to "en",
      `confirmed` to the opposite of the email-confirmation setting, `permissionLevel` to standard;
      the remaining keys stay nil when absent. */
  function Decode(json: UserJson, emailConfirmation: bool): (r: Result<UserRecord, DecodingError>)
    ensures r.Failure? <==> json.email.None? || json.password.None?
    ensures json.email.None? ==> r == Failure(KeyNotFound("email"))
    ensures json.email.Some? && json.password.None? ==> r == Failure(KeyNotFound("password"))
    ensures r.Success? ==>
      && r.value.email == json.email.value && r.value.password == json.password.value
      && r.value.id == json.id && r.value.firstname == json.firstname && r.value.lastname == json.lastname
      && r.value.emailCode == json.emailCode && r.value.deletedAt == json.deletedAt
      && (json.language.Some? ==> r.value.language == json.language.value)
      && (json.language.None? ==> r.value.language == "en")
      && (json.confirmed.Some? ==> r.value.confirmed == json.confirmed.value)
      && (json.confirmed.None? ==> r.value.confirmed == !emailConfirmation)
      && (json.permissionLevel.Some? ==> r.value.permissionLevel == json.permissionLevel.value)
      && (json.permissionLevel.None? ==> r.value.permissionLevel == Standard)
  {
    if json.email.None? then Failure(KeyNotFound("email"))
    else if json.password.None? then Failure(KeyNotFound("password"))
    else Success(UserRecord(
      json.id, json.firstname, json.lastname, json.email.value, json.password.value,
      json.language.GetOr("en"), json.emailCode, json.confirmed.GetOr(!emailConfirmation),
      json.permissionLevel.GetOr(Standard), json.deletedAt))
  }

  /** The JSON body that lists every field of a row. */
  function ToJson(u: UserRecord): UserJson {
    UserJson(u.id, u.firstname, u.lastname, Some(u.email), Some(u.password), Some(u.language),
             u.emailCode, Some(u.confirmed), Some(u.permissionLevel), u.deletedAt)
  }

  /** Decoding a body that lists every field gives the row back unchanged, defaults playing no part. */
  lemma DecodeToJson(u: UserRecord, emailConfirmation: bool)
    ensures Decode(ToJson(u), emailConfirmation) == Success(u)
  {
  }

  /** A body with just an email and a password decodes to the same user as `init(_:_:)` with
      language "en", that password and nothing else set. */
  lemma DecodeMinimalBody(email: string, password: string, emailConfirmation: bool)
    ensures Decode(UserJson(None, None, None, Some(email), Some(password), None, None, None, None, None), emailConfirmation)
         == Success(UserRecord(None, None, None, email, password, "en", None, !emailConfirmation, Standard, None))
  {
  }
}
