/** The user's attribute queries: select, build the key/text map, create and remove. */
module UserAttributes {
  import opened Wrappers
  import opened Http
  import opened Users
  import opened Attributes
  import opened Store

  /** `attributes(on:)`: the attributes whose `userID` is the user's id; fails when the user has none. */
  function AttributesOf(attrs: seq<Attribute>, u: UserRecord): (r: Result<seq<Attribute>, Failure>)
    ensures r.Failure? <==> u.id.None?
    ensures r.Failure? ==> r.error == MissingId
    ensures r.Success? ==> forall a :: a in r.value <==> a in attrs && a.userID == u.id.value
  {
    if u.id.None? then Failure(MissingId) else Success(Select(attrs, OwnedBy(u.id.value)))
  }

  /** `attributesMap(on:)`: key to text over the user's attributes, later ones overwriting earlier ones. */
  function AttributesMapOf(attrs: seq<Attribute>, u: UserRecord): (r: Result<map<string, string>, Failure>)
    ensures r.Failure? <==> u.id.None?
    ensures r.Success? ==> r.value.Keys == set a | a in attrs && a.userID == u.id.value :: a.key
  {
    match AttributesOf(attrs, u)
    case Failure(e) => Failure(e)
    case Success(own) => Success(TextByKey(own))
  }

  /** `createAttribute(_:text:on:)`: save a new attribute owned by the user. */
  method CreateAttribute(db: Database, u: UserRecord, key: string, text: string) returns (r: Result<Attribute, Failure>)
    requires db.Valid()
    modifies db
    ensures db.Valid() && db.users == old(db.users)
    ensures u.id.None? ==> r == Failure(MissingId) && db.attributes == old(db.attributes)
    ensures u.id.Some? ==> r == Success(Attribute(old(db.nextAttributeId), text, key, u.id.value))
    ensures u.id.Some? ==> db.attributes == old(db.attributes) + [r.value]
  {
    if u.id.None? {
      return Failure(MissingId);
    }
    var saved := db.InsertAttribute(text, key, u.id.value);
    r := Success(saved);
  }

  /** `removeAttribute(key:on:)`: delete this user's attributes with that key, and nothing else. */
  method RemoveAttributeByKey(db: Database, u: UserRecord, key: string) returns (r: Result<(), Failure>)
    requires db.Valid()
    modifies db
    ensures db.Valid() && db.users == old(db.users)
    ensures r.Failure? <==> u.id.None?
    ensures u.id.None? ==> r == Failure(MissingId) && db.attributes == old(db.attributes)
    ensures u.id.Some? ==> db.attributes == Remove(old(db.attributes), OwnedWithKey(u.id.value, key))
    ensures forall a :: a in db.attributes <==> a in old(db.attributes) && !(Some(a.userID) == u.id && a.key == key)
  {
    if u.id.None? {
      return Failure(MissingId);
    }
    db.DeleteAttributes(OwnedWithKey(u.id.value, key));
    r := Success(());
  }

  /** `removeAttribute(id:on:)`: delete this user's attribute with that id, and nothing else. */
  method RemoveAttributeById(db: Database, u: UserRecord, id: int) returns (r: Result<(), Failure>)
    requires db.Valid()
    modifies db
    ensures db.Valid() && db.users == old(db.users)
    ensures r.Failure? <==> u.id.None?
    ensures u.id.None? ==> r == Failure(MissingId) && db.attributes == old(db.attributes)
    ensures u.id.Some? ==> db.attributes == Remove(old(db.attributes), OwnedWithId(u.id.value, id))
    ensures forall a :: a in db.attributes <==> a in old(db.attributes) && !(Some(a.userID) == u.id && a.id == id)
  {
    if u.id.None? {
      return Failure(MissingId);
    }
    db.DeleteAttributes(OwnedWithId(u.id.value, id));
    r := Success(());
  }
}
