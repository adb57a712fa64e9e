/** The admin routes: list every user with their attributes, and edit any user. */
module AdminController {
  import opened Wrappers
  import opened Http
  import opened UserStatuses
  import opened Users
  import opened Attributes
  import opened Store
  import opened UserAttributes
  import opened UserResponses

  /** The body of an edit: every field optional; a missing field leaves the stored value. */
  datatype UserUpdate = UserUpdate(
    firstname: Option<string>,
    lastname: Option<string>,
    email: Option<string>,
    language: Option<string>,
    confirmed: Option<bool>,
    permissionLevel: Option<UserStatus>)

  datatype AllUsersSuccessResponse = AllUsersSuccessResponse(status: string, users: seq<UserResponse>)

  /** The user after an edit: each field the body carries replaces the stored one; the password,
      email code, id and deletion date are never touched. A name can be changed but not cleared,
      since a missing name in the body means "keep". */
  function Merge(u: UserRecord, b: UserUpdate): (v: UserRecord)
    ensures v.id == u.id && v.password == u.password && v.emailCode == u.emailCode && v.deletedAt == u.deletedAt
    ensures v.firstname == (if b.firstname.Some? then b.firstname else u.firstname)
    ensures v.lastname == (if b.lastname.Some? then b.lastname else u.lastname)
    ensures v.email == (if b.email.Some? then b.email.value else u.email)
    ensures v.language == (if b.language.Some? then b.language.value else u.language)
    ensures v.confirmed == (if b.confirmed.Some? then b.confirmed.value else u.confirmed)
    ensures v.permissionLevel == (if b.permissionLevel.Some? then b.permissionLevel.value else u.permissionLevel)
  {
    u.(firstname := if b.firstname.Some? then b.firstname else u.firstname,
       lastname := if b.lastname.Some? then b.lastname else u.lastname,
       email := b.email.GetOr(u.email),
       language := b.language.GetOr(u.language),
       confirmed := b.confirmed.GetOr(u.confirmed),
       permissionLevel := b.permissionLevel.GetOr(u.permissionLevel))
  }

  /** An empty body changes nothing. */
  lemma MergeEmpty(u: UserRecord)
    ensures Merge(u, UserUpdate(None, None, None, None, None, None)) == u
  {
  }

  /** Sending the same edit twice has the effect of sending it once. */
  lemma MergeIdempotent(u: UserRecord, b: UserUpdate)
    ensures Merge(Merge(u, b), b) == Merge(u, b)
  {
  }

  /** Two edits in a row act as one edit carrying, field by field, the later value when the later
      body has one and the earlier otherwise. */
  lemma MergeCompose(u: UserRecord, b: UserUpdate, c: UserUpdate)
    ensures Merge(Merge(u, b), c) == Merge(u, UserUpdate(
      if c.firstname.Some? then c.firstname else b.firstname,
      if c.lastname.Some? then c.lastname else b.lastname,
      if c.email.Some? then c.email else b.email,
      if c.language.Some? then c.language else b.language,
      if c.confirmed.Some? then c.confirmed else b.confirmed,
      if c.permissionLevel.Some? then c.permissionLevel else b.permissionLevel))
  {
  }

  /** The users table after `editUser`: the row with the id merged with the body, or not found. */
  function Edited(users: seq<UserRecord>, targetId: int, body: UserUpdate): (r: Result<seq<UserRecord>, Failure>)
    ensures First(users, IdIs(targetId)).None? <==> r == Failure(ModelNotFound(targetId))
    ensures r.Success? ==> |r.value| == |users|
    ensures r.Success? ==> forall j :: 0 <= j < |users| ==>
      r.value[j] == if users[j].id == Some(targetId) && j == First(users, IdIs(targetId)).value
                    then Merge(users[j], body) else users[j]
  {
    match First(users, IdIs(targetId))
    case None => Failure(ModelNotFound(targetId))
    case Some(i) => Success(users[i := Merge(users[i], body)])
  }

  /** An edit keeps the table's invariant, and afterwards looking the user up finds the merged row. */
  lemma EditedStored(users: seq<UserRecord>, nextId: int, targetId: int, body: UserUpdate)
    requires UsersStored(users, nextId) && Edited(users, targetId, body).Success?
    ensures UsersStored(Edited(users, targetId, body).value, nextId)
    ensures var i := First(users, IdIs(targetId)).value;
            First(Edited(users, targetId, body).value, IdIs(targetId)) == Some(i)
  {
    var i := First(users, IdIs(targetId)).value;
    var after := Edited(users, targetId, body).value;
    assert forall j :: 0 <= j < |after| ==> after[j].id == users[j].id;
  }

  /** `editUser`: find the user named in the path, overwrite the fields the body carries, update
      the row and answer with the profile and its attributes. */
  method EditUser(db: Database, targetId: int, body: UserUpdate) returns (r: Result<UserSuccessResponse, Failure>)
    requires db.Valid()
    modifies db
    ensures db.Valid() && db.attributes == old(db.attributes)
    ensures var e := Edited(old(db.users), targetId, body);
            && (e.Failure? ==> r == Failure(e.error) && db.users == old(db.users))
            && (e.Success? ==>
                  db.users == e.value &&
                  r == Respond(Merge(old(db.users)[First(old(db.users), IdIs(targetId)).value], body), db.attributes, true))
  {
    var found := First(db.users, IdIs(targetId));
    if found.None? {
      return Failure(ModelNotFound(targetId));
    }
    var user := new User.Load(db.users[found.value]);
    user.firstname := if body.firstname.Some? then body.firstname else user.firstname;
    user.lastname := if body.lastname.Some? then body.lastname else user.lastname;
    user.email := body.email.GetOr(user.email);
    user.language := body.language.GetOr(user.language);
    user.confirmed := body.confirmed.GetOr(user.confirmed);
    user.permissionLevel := body.permissionLevel.GetOr(user.permissionLevel);
    ReplacedAt(db.users, db.nextUserId, found.value, user.Value());
    db.UpdateUser(user.Value());
    r := Respond(user.Value(), db.attributes, true);
  }

  /** One response per user, in stored order, each with that user's own attributes; fails as soon
      as a user has no id. */
  function ResponsesOf(users: seq<UserRecord>, attrs: seq<Attribute>): (r: Result<seq<UserResponse>, Failure>)
    ensures r.Failure? <==> exists j :: 0 <= j < |users| && users[j].id.None?
    ensures r.Failure? ==> r.error == MissingId
    ensures r.Success? ==> |r.value| == |users| && forall j :: 0 <= j < |users| ==>
      r.value[j] == ResponseOf(users[j], Some(AttributesOf(attrs, users[j]).value))
  {
    if users == [] then Success([])
    else match AttributesOf(attrs, users[0])
      case Failure(e) => Failure(e)
      case Success(own) =>
        match ResponsesOf(users[1..], attrs)
        case Failure(e) => Failure(e)
        case Success(rest) =>
          assert forall j :: 1 <= j < |users| ==> users[j] == users[1..][j - 1];
          Success([ResponseOf(users[0], Some(own))] + rest)
  }

  /** `allUsers`: every user with their attributes. */
  function AllUsers(users: seq<UserRecord>, attrs: seq<Attribute>): (r: Result<AllUsersSuccessResponse, Failure>)
    ensures r.Success? ==> r.value.status == "success"
    ensures r.Success? <==> ResponsesOf(users, attrs).Success?
  {
    match ResponsesOf(users, attrs)
    case Failure(e) => Failure(e)
    case Success(responses) => Success(AllUsersSuccessResponse("success", responses))
  }

  /** On a stored table the listing succeeds, and the j-th entry shows exactly the attributes
      the j-th user owns and the level that user holds. */
  lemma AllUsersListsEveryone(users: seq<UserRecord>, attrs: seq<Attribute>, nextId: int, j: nat)
    requires UsersStored(users, nextId) && j < |users|
    ensures AllUsers(users, attrs).Success? && |AllUsers(users, attrs).value.users| == |users|
    ensures var entry := AllUsers(users, attrs).value.users[j];
            && entry.id == users[j].id
            && entry.permissionLevel == users[j].permissionLevel.id
            && (forall a :: a in entry.attributes.value <==> a in attrs && Some(a.userID) == users[j].id)
  {
  }
}
