/** Profile and attribute handlers of the authenticated user, and the admin-only user deletion. */
module UserController {
  import opened Wrappers
  import opened Http
  import opened UserStatuses
  import opened RouteRestrictions
  import opened Users
  import opened Attributes
  import opened Store
  import opened UserAttributes
  import opened UserResponses
  import opened UserHttp

  datatype NewUserBody = NewUserBody(firstname: Option<string>, lastname: Option<string>)

  datatype AttributeBody = AttributeBody(attributeKey: string, attributeText: string)

  const OnlyAdmins := "Only admins can delete users."
  const MissingAttributeSelector := "Missing 'attributeId/attributeKey' data from request"

  /** The restriction list the controller's routes sit behind: POST on `any/users/profile`,
      allowed for admins only. */
  function ProfileRestrictions(): (r: seq<MiddlewareRestriction>)
    ensures |r| == 1 && r[0].httpMethod == Some(POST)
    ensures r[0].path == [AnySegment, Constant("users"), Constant("profile")]
    ensures forall s :: s in r[0].allowed <==> s == Admin
  {
    [MiddlewareRestriction(Some(POST), [AnySegment, Constant("users"), Constant("profile")], [Admin])]
  }

  // ----- profile and attributes -----

  /** `profile`: the authenticated user with its attributes. */
  method Profile(req: Request, db: Database) returns (r: Result<UserSuccessResponse, Failure>)
    modifies req.Objects()
    ensures req.authenticated.None? ==> r == Failure(NotAuthenticated)
    ensures req.authenticated.Some? ==>
      var caller := WithLanguage(old(req.authenticated.value.Value()), req.languageHeader);
      && req.authenticated.value.Value() == caller
      && r == Respond(caller, db.attributes, true)
  {
    var current := CurrentUser(req);
    if current.Failure? {
      return Failure(current.error);
    }
    r := Respond(current.value.Value(), db.attributes, true);
  }

  /** `attributes`: every attribute the authenticated user owns, in stored order. */
  method ListAttributes(req: Request, db: Database) returns (r: Result<seq<Attribute>, Failure>)
    modifies req.Objects()
    ensures req.authenticated.None? ==> r == Failure(NotAuthenticated)
    ensures req.authenticated.Some? ==>
      var caller := WithLanguage(old(req.authenticated.value.Value()), req.languageHeader);
      && req.authenticated.value.Value() == caller
      && r == AttributesOf(db.attributes, caller)
  {
    var current := CurrentUser(req);
    if current.Failure? {
      return Failure(current.error);
    }
    r := AttributesOf(db.attributes, current.value.Value());
  }

  // ----- save -----

  /** The profile after `save`: each name is the body's, or "" when the body leaves it out
      (a missing name is cleared, not kept); nothing else changes. */
  function ProfileSaved(u: UserRecord, body: NewUserBody): (v: UserRecord)
    ensures v.firstname == Some(body.firstname.GetOr("")) && v.lastname == Some(body.lastname.GetOr(""))
    ensures v.(firstname := u.firstname, lastname := u.lastname) == u
  {
    u.(firstname := Some(body.firstname.GetOr("")), lastname := Some(body.lastname.GetOr("")))
  }

  /** `save`: set both names on the request's user (whose language the header may already have
      replaced) and update its row. */
  method Save(req: Request, db: Database, body: NewUserBody) returns (r: Result<UserSuccessResponse, Failure>)
    requires db.Valid()
    modifies db, req.Objects()
    ensures db.Valid() && db.attributes == old(db.attributes)
    ensures req.authenticated.None? ==> r == Failure(NotAuthenticated) && db.users == old(db.users)
    ensures req.authenticated.Some? ==>
      var saved := ProfileSaved(WithLanguage(old(req.authenticated.value.Value()), req.languageHeader), body);
      && req.authenticated.value.Value() == saved
      && (saved.id.None? ==> r == Failure(MissingId) && db.users == old(db.users))
      && (saved.id.Some? ==> db.users == Replaced(old(db.users), saved) && r == Respond(saved, db.attributes, true))
  {
    var current := CurrentUser(req);
    if current.Failure? {
      return Failure(current.error);
    }
    var user := current.value;
    user.firstname := Some(body.firstname.GetOr(""));
    user.lastname := Some(body.lastname.GetOr(""));
    if user.id.None? {
      return Failure(MissingId);
    }
    db.UpdateUser(user.Value());
    r := Respond(user.Value(), db.attributes, true);
  }

  // ----- createAttribute -----

  /** The attributes table after `createAttribute` as written: the first attribute with the key,
      whoever owns it, gets the new text; without one, the caller gets a new attribute. */
  function Upsert(attrs: seq<Attribute>, nextId: int, caller: UserRecord, key: string, text: string)
    : (r: Result<seq<Attribute>, Failure>)
    ensures FirstWithKey(attrs, key).Some? ==>
      var j := FirstWithKey(attrs, key).value;
      r == Success(attrs[j := attrs[j].(text := text)])
    ensures FirstWithKey(attrs, key).None? && caller.id.None? ==> r == Failure(MissingId)
    ensures FirstWithKey(attrs, key).None? && caller.id.Some? ==>
      r == Success(attrs + [Attribute(nextId, text, key, caller.id.value)])
  {
    match FirstWithKey(attrs, key)
    case Some(j) => Success(attrs[j := attrs[j].(text := text)])
    case None =>
      if caller.id.None? then Failure(MissingId)
      else Success(attrs + [Attribute(nextId, text, key, caller.id.value)])
  }

  /** The lookup is not scoped to the caller: when another user already has an attribute with the
      key, that user's text is overwritten and the caller still has no attribute with the key. */
  lemma UpsertOverwritesOtherUser()
    ensures var caller := UserRecord(Some(1), None, None, "a@b", "", "en", None, true, Standard, None);
            Upsert([Attribute(1, "old", "k", 2)], 2, caller, "k", "new") == Success([Attribute(1, "new", "k", 2)])
    ensures var caller := UserRecord(Some(1), None, None, "a@b", "", "en", None, true, Standard, None);
            AttributesOf([Attribute(1, "new", "k", 2)], caller) == Success([])
  {
    var before := [Attribute(1, "old", "k", 2)];
    var after := [Attribute(1, "new", "k", 2)];
    assert FirstWithKey(before, "k") == Some(0);
    assert before[0 := before[0].(text := "new")] == after;
    assert after[1..] == [];
    assert Select(after, OwnedBy(1)) == Select(after[1..], OwnedBy(1)) == [];
  }

  /** The intended upsert: look the key up among the caller's own attributes only; the caller's
      attribute with the key gets the new text, and only when there is none is one created. */
  function UpsertOwn(attrs: seq<Attribute>, nextId: int, caller: UserRecord, key: string, text: string)
    : (r: Result<seq<Attribute>, Failure>)
    ensures caller.id.None? ==> r == Failure(MissingId)
    ensures caller.id.Some? && FirstOwnedWithKey(attrs, caller.id.value, key).Some? ==>
      var j := FirstOwnedWithKey(attrs, caller.id.value, key).value;
      r == Success(attrs[j := attrs[j].(text := text)])
    ensures caller.id.Some? && FirstOwnedWithKey(attrs, caller.id.value, key).None? ==>
      r == Success(attrs + [Attribute(nextId, text, key, caller.id.value)])
  {
    if caller.id.None? then Failure(MissingId)
    else match FirstOwnedWithKey(attrs, caller.id.value, key)
      case Some(j) => Success(attrs[j := attrs[j].(text := text)])
      case None => Success(attrs + [Attribute(nextId, text, key, caller.id.value)])
  }

  /** The first attribute the user owns with the key. */
  function FirstOwnedWithKey(attrs: seq<Attribute>, userID: int, key: string): (r: Option<nat>)
    ensures r.Some? ==> r.value < |attrs| && attrs[r.value].key == key && attrs[r.value].userID == userID
    ensures r.None? <==> forall j :: 0 <= j < |attrs| ==> !(attrs[j].key == key && attrs[j].userID == userID)
  {
    if attrs == [] then None
    else if attrs[0].key == key && attrs[0].userID == userID then Some(0)
    else match FirstOwnedWithKey(attrs[1..], userID, key)
      case None => None
      case Some(i) => Some(i + 1)
  }

  /** The intended upsert touches only the caller's attributes, and afterwards the caller has an
      attribute with the key and the new text. */
  lemma UpsertOwnOnlyTouchesCaller(attrs: seq<Attribute>, nextId: int, caller: UserRecord, key: string, text: string)
    requires caller.id.Some?
    requires forall a :: a in attrs ==> a.id < nextId
    ensures var r := UpsertOwn(attrs, nextId, caller, key, text).value;
            && (forall a :: a in attrs && a.userID != caller.id.value ==> a in r)
            && (forall a :: a in r && a.userID != caller.id.value ==> a in attrs)
            && (exists a :: a in r && a.userID == caller.id.value && a.key == key && a.text == text)
  {
    var uid := caller.id.value;
    var r := UpsertOwn(attrs, nextId, caller, key, text).value;
    match FirstOwnedWithKey(attrs, uid, key)
    case Some(j) =>
      forall a | a in attrs && a.userID != uid ensures a in r {
        var k :| 0 <= k < |attrs| && attrs[k] == a;
        assert r[k] == a;
      }
      assert r[j] in r;
    case None =>
      assert r[|attrs|] in r;
  }

  /** The intended upsert keeps each user's keys unique, as the attribute table promises. */
  lemma UpsertOwnKeepsKeysUnique(attrs: seq<Attribute>, nextId: int, caller: UserRecord, key: string, text: string)
    requires caller.id.Some? && KeysUniquePerUser(attrs)
    ensures KeysUniquePerUser(UpsertOwn(attrs, nextId, caller, key, text).value)
  {
    var r := UpsertOwn(attrs, nextId, caller, key, text).value;
    if FirstOwnedWithKey(attrs, caller.id.value, key).None? {
      forall i, j | 0 <= i < j < |r| && r[i].userID == r[j].userID ensures r[i].key != r[j].key {
        if j == |attrs| {
          assert r[i] == attrs[i];
        } else {
          assert r[i] == attrs[i] && r[j] == attrs[j];
        }
      }
    }
  }

  /** With keys unique per user, after the intended upsert the caller's attribute map sends the key
      to the new text. */
  lemma UpsertOwnMapsKey(attrs: seq<Attribute>, nextId: int, caller: UserRecord, key: string, text: string)
    requires caller.id.Some? && KeysUniquePerUser(attrs)
    requires forall a :: a in attrs ==> a.id < nextId
    ensures var r := UpsertOwn(attrs, nextId, caller, key, text).value;
            key in AttributesMapOf(r, caller).value && AttributesMapOf(r, caller).value[key] == text
  {
    var uid := caller.id.value;
    var r := UpsertOwn(attrs, nextId, caller, key, text).value;
    UpsertOwnOnlyTouchesCaller(attrs, nextId, caller, key, text);
    UpsertOwnKeepsKeysUnique(attrs, nextId, caller, key, text);
    var own := Select(r, OwnedBy(uid));
    SelectKeepsKeysUnique(r, OwnedBy(uid));
    var a :| a in r && a.userID == uid && a.key == key && a.text == text;
    assert a in own;
    var i :| 0 <= i < |own| && own[i] == a;
    forall j | i < j < |own| ensures own[j].key != own[i].key {
      assert own[j] in own;
    }
    TextByKeyLastWins(own, i);
  }

  /** `createAttribute` as written: update the first attribute with the key, or create one owned
      by the caller; answer with the caller's profile. */
  method CreateAttribute(req: Request, db: Database, body: AttributeBody) returns (r: Result<UserSuccessResponse, Failure>)
    requires db.Valid()
    modifies db, req.Objects()
    ensures db.Valid() && db.users == old(db.users)
    ensures req.authenticated.None? ==> r == Failure(NotAuthenticated) && db.attributes == old(db.attributes)
    ensures req.authenticated.Some? ==>
      var caller := WithLanguage(old(req.authenticated.value.Value()), req.languageHeader);
      var upsert := Upsert(old(db.attributes), old(db.nextAttributeId), caller, body.attributeKey, body.attributeText);
      && req.authenticated.value.Value() == caller
      && (upsert.Failure? ==> r == Failure(upsert.error) && db.attributes == old(db.attributes))
      && (upsert.Success? ==> db.attributes == upsert.value && r == Respond(caller, db.attributes, true))
  {
    var current := CurrentUser(req);
    if current.Failure? {
      return Failure(current.error);
    }
    var user := current.value;
    var found := FirstWithKey(db.attributes, body.attributeKey);
    if found.Some? {
      var attribute := db.attributes[found.value].(text := body.attributeText);
      ReplacedAttributeAt(db.attributes, db.nextAttributeId, found.value, attribute);
      db.UpdateAttribute(attribute);
    } else {
      var created := UserAttributes.CreateAttribute(db, user.Value(), body.attributeKey, body.attributeText);
      if created.Failure? {
        return Failure(created.error);
      }
    }
    r := Respond(user.Value(), db.attributes, true);
  }

  /** The intended `createAttribute`: the same, with the lookup scoped to the caller. */
  method CreateOwnAttribute(req: Request, db: Database, body: AttributeBody) returns (r: Result<UserSuccessResponse, Failure>)
    requires db.Valid()
    modifies db, req.Objects()
    ensures db.Valid() && db.users == old(db.users)
    ensures req.authenticated.None? ==> r == Failure(NotAuthenticated) && db.attributes == old(db.attributes)
    ensures req.authenticated.Some? ==>
      var caller := WithLanguage(old(req.authenticated.value.Value()), req.languageHeader);
      var upsert := UpsertOwn(old(db.attributes), old(db.nextAttributeId), caller, body.attributeKey, body.attributeText);
      && req.authenticated.value.Value() == caller
      && (upsert.Failure? ==> r == Failure(upsert.error) && db.attributes == old(db.attributes))
      && (upsert.Success? ==> db.attributes == upsert.value && r == Respond(caller, db.attributes, true))
  {
    var current := CurrentUser(req);
    if current.Failure? {
      return Failure(current.error);
    }
    var user := current.value;
    if user.id.None? {
      return Failure(MissingId);
    }
    var found := FirstOwnedWithKey(db.attributes, user.id.value, body.attributeKey);
    if found.Some? {
      var attribute := db.attributes[found.value].(text := body.attributeText);
      ReplacedAttributeAt(db.attributes, db.nextAttributeId, found.value, attribute);
      db.UpdateAttribute(attribute);
    } else {
      var created := UserAttributes.CreateAttribute(db, user.Value(), body.attributeKey, body.attributeText);
    }
    r := Respond(user.Value(), db.attributes, true);
  }

  // ----- delete -----

  /** `delete` as written: only an admin may call it; the target must exist; then the target's
      attributes are deleted. The target's own row stays. */
  function Deletion(users: seq<UserRecord>, attrs: seq<Attribute>, caller: UserRecord, targetId: int)
    : (r: Result<(seq<UserRecord>, seq<Attribute>), Failure>)
    ensures caller.permissionLevel != Admin ==> r == Failure(Abort(Unauthorized, OnlyAdmins))
    ensures caller.permissionLevel == Admin && First(users, IdIs(targetId)).None? ==> r == Failure(ModelNotFound(targetId))
    ensures r.Success? ==> r.value == (users, Remove(attrs, OwnedBy(targetId)))
    ensures r.Success? <==> caller.permissionLevel == Admin && First(users, IdIs(targetId)).Some?
  {
    if caller.permissionLevel != Admin then Failure(Abort(Unauthorized, OnlyAdmins))
    else if First(users, IdIs(targetId)).None? then Failure(ModelNotFound(targetId))
    else Success((users, Remove(attrs, OwnedBy(targetId))))
  }

  /** After a successful `delete` the deleted user can still be found by id. */
  lemma DeletionKeepsUserRow(users: seq<UserRecord>, attrs: seq<Attribute>, caller: UserRecord, targetId: int)
    requires Deletion(users, attrs, caller, targetId).Success?
    ensures First(Deletion(users, attrs, caller, targetId).value.0, IdIs(targetId)).Some?
    ensures forall a :: a in Deletion(users, attrs, caller, targetId).value.1 ==> a.userID != targetId
  {
  }

  /** The intended deletion: the same checks, then the attributes and the user's row both go. */
  function DeletionWithUser(users: seq<UserRecord>, attrs: seq<Attribute>, caller: UserRecord, targetId: int)
    : (r: Result<(seq<UserRecord>, seq<Attribute>), Failure>)
    ensures r.Success? <==> Deletion(users, attrs, caller, targetId).Success?
    ensures r.Failure? ==> r.error == Deletion(users, attrs, caller, targetId).error
    ensures r.Success? ==> r.value == (WithoutUser(users, targetId), Remove(attrs, OwnedBy(targetId)))
  {
    match Deletion(users, attrs, caller, targetId)
    case Failure(e) => Failure(e)
    case Success(_) => Success((WithoutUser(users, targetId), Remove(attrs, OwnedBy(targetId))))
  }

  /** After the intended deletion nothing of the user remains and every other user is kept. */
  lemma DeletionWithUserRemovesUser(users: seq<UserRecord>, attrs: seq<Attribute>, caller: UserRecord, targetId: int)
    requires DeletionWithUser(users, attrs, caller, targetId).Success?
    ensures var (us, as_) := DeletionWithUser(users, attrs, caller, targetId).value;
            && First(us, IdIs(targetId)).None?
            && (forall a :: a in as_ ==> a.userID != targetId)
            && (forall u :: u in users && u.id != Some(targetId) ==> u in us)
  {
    var us := DeletionWithUser(users, attrs, caller, targetId).value.0;
    forall j | 0 <= j < |us| ensures !Holds(IdIs(targetId), us[j]) {
      assert us[j] in us;
    }
  }

  /** `delete` as written: refuse a caller who is not an admin, find the target, delete its
      attributes, answer 204. */
  method Delete(req: Request, db: Database, targetId: int) returns (r: Result<Status, Failure>)
    requires db.Valid()
    modifies db, req.Objects()
    ensures db.Valid() && db.users == old(db.users)
    ensures req.authenticated.None? ==> r == Failure(NotAuthenticated) && db.attributes == old(db.attributes)
    ensures req.authenticated.Some? ==>
      var caller := WithLanguage(old(req.authenticated.value.Value()), req.languageHeader);
      var d := Deletion(old(db.users), old(db.attributes), caller, targetId);
      && req.authenticated.value.Value() == caller
      && (d.Failure? ==> r == Failure(d.error) && db.attributes == old(db.attributes))
      && (d.Success? ==> r == Success(NoContent) && db.attributes == d.value.1)
  {
    var current := CurrentUser(req);
    if current.Failure? {
      return Failure(current.error);
    }
    var admin := current.value;
    if admin.permissionLevel != Admin {
      return Failure(Abort(Unauthorized, OnlyAdmins));
    }
    var found := First(db.users, IdIs(targetId));
    if found.None? {
      return Failure(ModelNotFound(targetId));
    }
    var target := db.users[found.value];
    var deleted := RemoveAttributesOf(db, target);
    r := Success(NoContent);
  }

  /** `user.attributes(on:).delete()`. */
  method RemoveAttributesOf(db: Database, u: UserRecord) returns (r: Result<(), Failure>)
    requires db.Valid()
    modifies db
    ensures db.Valid() && db.users == old(db.users)
    ensures u.id.None? ==> r == Failure(MissingId) && db.attributes == old(db.attributes)
    ensures u.id.Some? ==> r == Success(()) && db.attributes == Remove(old(db.attributes), OwnedBy(u.id.value))
  {
    if u.id.None? {
      return Failure(MissingId);
    }
    db.DeleteAttributes(OwnedBy(u.id.value));
    r := Success(());
  }

  /** The intended `delete`: as written, and the user's row is deleted too. */
  method DeleteWithUser(req: Request, db: Database, targetId: int) returns (r: Result<Status, Failure>)
    requires db.Valid()
    modifies db, req.Objects()
    ensures db.Valid()
    ensures req.authenticated.None? ==> r == Failure(NotAuthenticated) && db.users == old(db.users) && db.attributes == old(db.attributes)
    ensures req.authenticated.Some? ==>
      var caller := WithLanguage(old(req.authenticated.value.Value()), req.languageHeader);
      var d := DeletionWithUser(old(db.users), old(db.attributes), caller, targetId);
      && req.authenticated.value.Value() == caller
      && (d.Failure? ==> r == Failure(d.error) && db.users == old(db.users) && db.attributes == old(db.attributes))
      && (d.Success? ==> r == Success(NoContent) && (db.users, db.attributes) == d.value)
  {
    r := Delete(req, db, targetId);
    if r.Success? {
      db.DeleteUser(targetId);
    }
  }

  // ----- deleteAttributes -----

  /** The attributes table after `deleteAttributes`: with a key, the caller's attributes with that
      key go (an id, if also given, is ignored); otherwise with an id, the caller's attribute with
      that id; with neither, the request is refused. */
  function AttributeDeletion(attrs: seq<Attribute>, caller: UserRecord, key: Option<string>, id: Option<int>)
    : (r: Result<seq<Attribute>, Failure>)
    ensures key.None? && id.None? ==> r == Failure(Abort(BadRequest, MissingAttributeSelector))
    ensures (key.Some? || id.Some?) && caller.id.None? ==> r == Failure(MissingId)
    ensures key.Some? && caller.id.Some? ==> r == Success(Remove(attrs, OwnedWithKey(caller.id.value, key.value)))
    ensures key.None? && id.Some? && caller.id.Some? ==> r == Success(Remove(attrs, OwnedWithId(caller.id.value, id.value)))
    ensures r.Success? ==> forall a :: a in attrs && Some(a.userID) != caller.id ==> a in r.value
  {
    if key.Some? then
      if caller.id.None? then Failure(MissingId) else Success(Remove(attrs, OwnedWithKey(caller.id.value, key.value)))
    else if id.Some? then
      if caller.id.None? then Failure(MissingId) else Success(Remove(attrs, OwnedWithId(caller.id.value, id.value)))
    else Failure(Abort(BadRequest, MissingAttributeSelector))
  }

  /** A key, when present, decides alone: whatever id comes with it, the outcome is the same. */
  lemma KeyTakesPrecedence(attrs: seq<Attribute>, caller: UserRecord, key: string, id: Option<int>)
    ensures AttributeDeletion(attrs, caller, Some(key), id) == AttributeDeletion(attrs, caller, Some(key), None)
  {
  }

  /** `deleteAttributes`: remove the caller's attributes by key, else by id, else refuse; 204. */
  method DeleteAttributes(req: Request, db: Database, key: Option<string>, id: Option<int>) returns (r: Result<Status, Failure>)
    requires db.Valid()
    modifies db, req.Objects()
    ensures db.Valid() && db.users == old(db.users)
    ensures req.authenticated.None? ==> r == Failure(NotAuthenticated) && db.attributes == old(db.attributes)
    ensures req.authenticated.Some? ==>
      var caller := WithLanguage(old(req.authenticated.value.Value()), req.languageHeader);
      var d := AttributeDeletion(old(db.attributes), caller, key, id);
      && req.authenticated.value.Value() == caller
      && (d.Failure? ==> r == Failure(d.error) && db.attributes == old(db.attributes))
      && (d.Success? ==> r == Success(NoContent) && db.attributes == d.value)
  {
    var current := CurrentUser(req);
    if current.Failure? {
      return Failure(current.error);
    }
    var user := current.value;
    var deleted: Result<(), Failure>;
    if key.Some? {
      deleted := RemoveAttributeByKey(db, user.Value(), key.value);
    } else if id.Some? {
      deleted := RemoveAttributeById(db, user.Value(), id.value);
    } else {
      return Failure(Abort(BadRequest, MissingAttributeSelector));
    }
    if deleted.Failure? {
      return Failure(deleted.error);
    }
    r := Success(NoContent);
  }
}
