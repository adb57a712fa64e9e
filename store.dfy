/** The database the handlers read and write, as an in-memory store: the `users` and
    `attributes` tables in query order, with autoincrement primary keys. */
module Store {
  import opened Wrappers
  import opened Users
  import opened Attributes

  /** The `filter` conditions the handlers put on user queries. */
  datatype UserQuery = EmailIs(email: string) | EmailCodeIs(code: string) | IdIs(id: int)

  predicate Holds(q: UserQuery, u: UserRecord) {
    match q
    case EmailIs(e) => u.email == e
    case EmailCodeIs(c) => u.emailCode == Some(c)  // a NULL code never equals a string
    case IdIs(i) => u.id == Some(i)
  }

  /** `query.filter(q).first()`: the index of the first row satisfying `q`, if any. */
  function First(users: seq<UserRecord>, q: UserQuery): (r: Option<nat>)
    ensures r.Some? ==> r.value < |users| && Holds(q, users[r.value])
    ensures r.Some? ==> forall j :: 0 <= j < r.value ==> !Holds(q, users[j])
    ensures r.None? <==> forall j :: 0 <= j < |users| ==> !Holds(q, users[j])
  {
    if users == [] then None
    else if Holds(q, users[0]) then Some(0)
    else match First(users[1..], q)
      case None => None
      case Some(i) => Some(i + 1)
  }

  /** `update(on:)`: every row with the saved row's id is overwritten by it. */
  function Replaced(users: seq<UserRecord>, row: UserRecord): (r: seq<UserRecord>)
    ensures |r| == |users|
    ensures forall i :: 0 <= i < |users| ==> r[i] == if users[i].id == row.id then row else users[i]
  {
    seq(|users|, i requires 0 <= i < |users| => if users[i].id == row.id then row else users[i])
  }

  /** Updating an attribute row: the row with its id is overwritten. This is `Replaced` for the
      attributes table; the two tables have different row types and Dafny functions here take
      no projection of the id, so each table has its own copy. */
  function ReplacedAttribute(attrs: seq<Attribute>, row: Attribute): (r: seq<Attribute>)
    ensures |r| == |attrs|
    ensures forall i :: 0 <= i < |attrs| ==> r[i] == if attrs[i].id == row.id then row else attrs[i]
  {
    seq(|attrs|, i requires 0 <= i < |attrs| => if attrs[i].id == row.id then row else attrs[i])
  }

  /** Stored users all have ids below the next autoincrement value, and no two share one. */
  predicate UsersStored(users: seq<UserRecord>, nextId: int) {
    && (forall i :: 0 <= i < |users| ==> users[i].id.Some? && users[i].id.value < nextId)
    && (forall i, j :: 0 <= i < j < |users| ==> users[i].id != users[j].id)
  }

  /** Stored attributes have ids below the next autoincrement value, and no two share one. */
  predicate AttributesStored(attrs: seq<Attribute>, nextId: int) {
    && (forall i :: 0 <= i < |attrs| ==> attrs[i].id < nextId)
    && (forall i, j :: 0 <= i < j < |attrs| ==> attrs[i].id != attrs[j].id)
  }

  /** With distinct ids, updating the row found at index `i` changes that row and no other. */
  lemma ReplacedAt(users: seq<UserRecord>, nextId: int, i: nat, row: UserRecord)
    requires UsersStored(users, nextId) && i < |users| && row.id == users[i].id
    ensures Replaced(users, row) == users[i := row]
  {
    assert forall j :: 0 <= j < |users| && j != i ==> users[j].id != users[i].id;
  }

  /** With distinct ids, saving the attribute found at index `j` changes that row and no other. */
  lemma ReplacedAttributeAt(attrs: seq<Attribute>, nextId: int, j: nat, row: Attribute)
    requires AttributesStored(attrs, nextId) && j < |attrs| && row.id == attrs[j].id
    ensures ReplacedAttribute(attrs, row) == attrs[j := row]
  {
    assert forall k :: 0 <= k < |attrs| && k != j ==> attrs[k].id != attrs[j].id;
  }

  /** `query.filter(\.key == key).first()` on the attributes table, over every owner. */
  function FirstWithKey(attrs: seq<Attribute>, key: string): (r: Option<nat>)
    ensures r.Some? ==> r.value < |attrs| && attrs[r.value].key == key
    ensures r.Some? ==> forall j :: 0 <= j < r.value ==> attrs[j].key != key
    ensures r.None? <==> forall j :: 0 <= j < |attrs| ==> attrs[j].key != key
  {
    if attrs == [] then None
    else if attrs[0].key == key then Some(0)
    else match FirstWithKey(attrs[1..], key)
      case None => None
      case Some(i) => Some(i + 1)
  }

  /** The users table after deleting the row with `id`, the others in order. */
  function WithoutUser(users: seq<UserRecord>, id: int): (r: seq<UserRecord>)
    ensures forall u :: u in r <==> u in users && u.id != Some(id)
  {
    if users == [] then []
    else if users[0].id == Some(id) then WithoutUser(users[1..], id)
    else [users[0]] + WithoutUser(users[1..], id)
  }

  /** Deleting a user keeps the remaining ids below the counter and distinct. */
  lemma {:induction false} WithoutUserStored(users: seq<UserRecord>, id: int, nextId: int)
    requires UsersStored(users, nextId)
    ensures UsersStored(WithoutUser(users, id), nextId)
  {
    if users != [] {
      var tail := users[1..];
      assert UsersStored(tail, nextId) by {
        forall i, j | 0 <= i < j < |tail| ensures tail[i].id != tail[j].id {
          assert tail[i] == users[i + 1] && tail[j] == users[j + 1];
        }
      }
      WithoutUserStored(tail, id, nextId);
      var r := WithoutUser(users, id);
      if users[0].id != Some(id) {
        forall j | 0 < j < |r| ensures r[0].id != r[j].id {
          assert r[j] in tail;
          var k :| 0 <= k < |tail| && tail[k] == r[j];
          assert users[k + 1] == r[j];
        }
      }
    }
  }

  class Database {
    var users: seq<UserRecord>
    var attributes: seq<Attribute>
    var nextUserId: int
    var nextAttributeId: int

    ghost predicate Valid()
      reads this
    {
      UsersStored(users, nextUserId) && AttributesStored(attributes, nextAttributeId)
    }

    constructor ()
      ensures Valid() && users == [] && attributes == []
    {
      users, attributes := [], [];
      nextUserId, nextAttributeId := 1, 1;
    }

    /** `create(on:)`: the row gets the next id and is appended. */
    method InsertUser(row: UserRecord) returns (saved: UserRecord)
      requires Valid()
      modifies this
      ensures Valid()
      ensures saved == row.(id := Some(old(nextUserId)))
      ensures users == old(users) + [saved] && attributes == old(attributes)
    {
      saved := row.(id := Some(nextUserId));
      users := users + [saved];
      nextUserId := nextUserId + 1;
    }

    /** `update(on:)` of a row that has an id. */
    method UpdateUser(row: UserRecord)
      requires Valid() && row.id.Some?
      modifies this
      ensures Valid()
      ensures users == Replaced(old(users), row) && attributes == old(attributes)
    {
      users := Replaced(users, row);
    }

    /** `save(on:)`: create when the row has no id yet, update otherwise. */
    method SaveUser(row: UserRecord) returns (saved: UserRecord)
      requires Valid()
      modifies this
      ensures Valid() && attributes == old(attributes)
      ensures row.id.None? ==> saved == row.(id := Some(old(nextUserId))) && users == old(users) + [saved]
      ensures row.id.Some? ==> saved == row && users == Replaced(old(users), row)
    {
      if row.id.None? {
        saved := InsertUser(row);
      } else {
        saved := row;
        UpdateUser(row);
      }
    }

    /** Saving a new attribute: it gets the next id and is appended. */
    method InsertAttribute(text: string, key: string, userID: int) returns (saved: Attribute)
      requires Valid()
      modifies this
      ensures Valid()
      ensures saved == Attribute(old(nextAttributeId), text, key, userID)
      ensures attributes == old(attributes) + [saved] && users == old(users)
    {
      saved := Attribute(nextAttributeId, text, key, userID);
      attributes := attributes + [saved];
      nextAttributeId := nextAttributeId + 1;
    }

    /** Saving an attribute that already has an id. */
    method UpdateAttribute(row: Attribute)
      requires Valid()
      modifies this
      ensures Valid()
      ensures attributes == ReplacedAttribute(old(attributes), row) && users == old(users)
    {
      var before := attributes;
      attributes := ReplacedAttribute(attributes, row);
      assert forall i :: 0 <= i < |attributes| ==> attributes[i].id == before[i].id;
    }

    /** Deleting a user row by id; the attributes table is left alone. */
    method DeleteUser(id: int)
      requires Valid()
      modifies this
      ensures Valid() && attributes == old(attributes)
      ensures users == WithoutUser(old(users), id)
    {
      WithoutUserStored(users, id, nextUserId);
      users := WithoutUser(users, id);
    }

    /** `delete()` on an attribute query: the selected rows go, the rest keep their order. */
    method DeleteAttributes(f: AttributeFilter)
      requires Valid()
      modifies this
      ensures Valid()
      ensures attributes == Remove(old(attributes), f) && users == old(users)
    {
      RemoveStored(attributes, f, nextAttributeId);
      attributes := Remove(attributes, f);
    }
  }

  /** Deleting rows keeps the remaining ids below the counter and distinct. */
  lemma {:induction false} RemoveStored(attrs: seq<Attribute>, f: AttributeFilter, nextId: int)
    requires AttributesStored(attrs, nextId)
    ensures AttributesStored(Remove(attrs, f), nextId)
  {
    if attrs != [] {
      var tail := attrs[1..];
      assert AttributesStored(tail, nextId) by {
        forall i, j | 0 <= i < j < |tail| ensures tail[i].id != tail[j].id {
          assert tail[i] == attrs[i + 1] && tail[j] == attrs[j + 1];
        }
      }
      RemoveStored(tail, f, nextId);
      var r := Remove(attrs, f);
      if !Matches(f, attrs[0]) {
        var r' := Remove(tail, f);
        assert r == [attrs[0]] + r';
        forall j | 0 < j < |r| ensures r[0].id != r[j].id {
          assert r[j] in tail;
          var k :| 0 <= k < |tail| && tail[k] == r[j];
          assert attrs[k + 1] == r[j];
        }
      }
    }
  }
}
