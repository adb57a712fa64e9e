/** Properties that span several handlers: what a refresh token obtained at login yields later,
    after an admin edit, and after a deletion. */
module Sessions {
  import opened Wrappers
  import opened Http
  import opened UserStatuses
  import opened Users
  import opened Attributes
  import opened Store
  import opened AccessTokens
  import opened AuthController
  import opened AdminController
  import opened UserController

  /** The refresh token a stored user gets at login can be exchanged for a new access token
      exactly until thirty days after the login, and the new payload describes the stored user. */
  lemma LoginThenRefresh(users: seq<UserRecord>, nextId: int, i: nat, loginAt: int, later: int,
                         issueAccess: Payload -> string, signRefresh: RefreshToken -> string)
    requires UsersStored(users, nextId) && i < |users|
    ensures Login(Some(users[i]), loginAt, issueAccess, signRefresh).Success?
    ensures var t := RefreshToken(users[i].id.value, loginAt, loginAt + DefaultRefreshLifetime);
            && Login(Some(users[i]), loginAt, issueAccess, signRefresh).value.refreshToken == signRefresh(t)
            && (RefreshPayload(users, Success(t), later).Success? <==> later < loginAt + DefaultRefreshLifetime)
            && (later < loginAt + DefaultRefreshLifetime ==>
                  RefreshPayload(users, Success(t), later) == NewPayload(users[i], later, DefaultAccessLifetime))
  {
    var t := RefreshToken(users[i].id.value, loginAt, loginAt + DefaultRefreshLifetime);
    var found := First(users, IdIs(t.id));
    assert Holds(IdIs(t.id), users[i]);
    if found.Some? {
      assert found.value == i by {
        assert users[found.value].id == users[i].id;
      }
    }
  }

  /** After an admin edits a user's level, that user's next refresh carries the new level, even
      with a refresh token issued before the edit. */
  lemma RefreshAfterEdit(users: seq<UserRecord>, nextId: int, t: RefreshToken, body: UserUpdate, level: UserStatus, now: int)
    requires UsersStored(users, nextId) && now < t.exp
    requires Edited(users, t.id, body).Success? && body.permissionLevel == Some(level)
    ensures RefreshPayload(Edited(users, t.id, body).value, Success(t), now).Success?
    ensures RefreshPayload(Edited(users, t.id, body).value, Success(t), now).value.status == level
  {
    EditedStored(users, nextId, t.id, body);
  }

  /** Because `delete` keeps the user's row, a refresh token issued to a deleted user still yields
      new access tokens; after the intended deletion the same refresh is refused. */
  lemma RefreshAfterDeletion(users: seq<UserRecord>, attrs: seq<Attribute>, nextId: int, admin: UserRecord,
                             t: RefreshToken, now: int)
    requires UsersStored(users, nextId) && now < t.exp
    requires Deletion(users, attrs, admin, t.id).Success?
    ensures RefreshPayload(Deletion(users, attrs, admin, t.id).value.0, Success(t), now).Success?
    ensures RefreshPayload(DeletionWithUser(users, attrs, admin, t.id).value.0, Success(t), now)
            == Failure(Abort(BadRequest, NoUserWithId(t.id)))
  {
    DeletionWithUserRemovesUser(users, attrs, admin, t.id);
  }
}
