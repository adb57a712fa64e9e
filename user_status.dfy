/** Permission levels: an integer id with a display name, and the process-wide registry
    that gives every id one canonical name and only ever grows. */
module UserStatuses {
  import opened Wrappers
  import Text

  /** A permission level. Its wire and database form is the bare `id`. */
  datatype UserStatus = UserStatus(id: int, name: string)

  const Admin := UserStatus(0, "admin")
  const Moderator := UserStatus(1, "moderator")
  const Standard := UserStatus(2, "standard")

  /** The registry's contents when the process starts. */
  function InitialStatuses(): (m: map<int, string>)
    ensures m.Keys == {0, 1, 2}
    ensures m[Admin.id] == Admin.name && m[Moderator.id] == Moderator.name && m[Standard.id] == Standard.name
  {
    map[0 := "admin", 1 := "moderator", 2 := "standard"]
  }

  /** The name given to an id registered without one: `custom-<id>`. */
  function CustomName(id: int): (name: string)
    ensures |name| > 7 && name[..7] == "custom-"
    ensures name[7..] == Text.IntToDecimal(id)
  {
    "custom-" + Text.IntToDecimal(id)
  }

  /** Default names never collide: two ids share a default name only if they are equal. */
  lemma CustomNameInjective(a: int, b: int)
    requires CustomName(a) == CustomName(b)
    ensures a == b
  {
    assert CustomName(a)[7..] == CustomName(b)[7..];
    Text.IntToDecimalInjective(a, b);
  }

  /** Every entry of `before` is still in `after` with the same name. */
  predicate Extends(before: map<int, string>, after: map<int, string>) {
    forall k :: k in before ==> k in after && after[k] == before[k]
  }

  /** The registry keeps the three built-in levels. */
  predicate Consistent(statuses: map<int, string>) {
    Extends(InitialStatuses(), statuses)
  }

  /** `init(id:name:)` as a value: the status built and the registry afterwards.
      A stored name always wins; otherwise the given name, or `custom-<id>`, is stored and used. */
  function Resolve(statuses: map<int, string>, id: int, name: Option<string>): (r: (UserStatus, map<int, string>))
    ensures r.0.id == id
    ensures id in r.1 && r.1[id] == r.0.name
    ensures Extends(statuses, r.1) && r.1.Keys == statuses.Keys + {id}
    ensures id in statuses ==> r.0.name == statuses[id] && r.1 == statuses
    ensures id !in statuses ==> r.0.name == name.GetOr(CustomName(id)) && r.1 == statuses[id := r.0.name]
  {
    if id in statuses then
      (UserStatus(id, statuses[id]), statuses)
    else
      var chosen := name.GetOr(CustomName(id));
      (UserStatus(id, chosen), statuses[id := chosen])
  }

  /** `rawValue`: the id. */
  function RawValue(s: UserStatus): (raw: int)
    ensures raw == s.id
  {
    s.id
  }

  /** `encode(to:)`: a single integer, the id; the name is not written. */
  function Encode(s: UserStatus): (wire: int)
    ensures wire == RawValue(s)
  {
    s.id
  }

  /** Registering an id a second time returns the first name and leaves the registry alone,
      whatever name the second call passes. */
  lemma RegisterTwice(statuses: map<int, string>, id: int, first: Option<string>, second: Option<string>)
    ensures var (s1, after) := Resolve(statuses, id, first);
            Resolve(after, id, second) == (s1, after)
  {
  }

  /** Decoding what `Encode` wrote, against a registry that produced the status, gives back
      an equal status (same id and name) and does not touch the registry. */
  lemma DecodeEncode(statuses: map<int, string>, s: UserStatus)
    requires s.id in statuses && statuses[s.id] == s.name
    ensures Resolve(statuses, Encode(s), None) == (s, statuses)
  {
  }

  /** Two statuses taken from one registry are equal exactly when their ids are: the registry
      gives each id one name. For example, a status with id 0 equals `Admin`. */
  lemma EqualIffSameId(statuses: map<int, string>, s: UserStatus, t: UserStatus)
    requires Consistent(statuses)
    requires s.id in statuses && statuses[s.id] == s.name
    requires t.id in statuses && statuses[t.id] == t.name
    ensures s == t <==> s.id == t.id
    ensures s == Admin <==> s.id == 0
  {
    assert 0 in InitialStatuses();
  }

  /** The process-wide `statuses` table. */
  class StatusRegistry {
    var statuses: map<int, string>

    ghost predicate Valid()
      reads this
    {
      Consistent(statuses)
    }

    constructor ()
      ensures Valid()
      ensures statuses == InitialStatuses()
    {
      statuses := InitialStatuses();
    }

    /** `init(id:name:)`: look the id up; store the new name only when the id is absent. */
    method Status(id: int, name: Option<string>) returns (s: UserStatus)
      requires Valid()
      modifies this
      ensures Valid()
      ensures (s, statuses) == Resolve(old(statuses), id, name)
      ensures s.id == id && id in statuses && statuses[s.id] == s.name
      ensures Extends(old(statuses), statuses)
    {
      if id in statuses {
        s := UserStatus(id, statuses[id]);
      } else {
        var chosen := if name.Some? then name.value else CustomName(id);
        s := UserStatus(id, chosen);
        statuses := statuses[id := chosen];
      }
    }

    /** `init(rawValue:)`: the same as `init(id: value, name: nil)`. */
    method FromRawValue(value: int) returns (s: UserStatus)
      requires Valid()
      modifies this
      ensures Valid()
      ensures (s, statuses) == Resolve(old(statuses), value, None)
    {
      s := Status(value, None);
    }

    /** `init(integerLiteral:)`: the same as `init(rawValue:)`. */
    method FromIntegerLiteral(value: int) returns (s: UserStatus)
      requires Valid()
      modifies this
      ensures Valid()
      ensures (s, statuses) == Resolve(old(statuses), value, None)
    {
      s := FromRawValue(value);
    }

    /** `init(from:)`: read one integer and go through `init(rawValue:)`. */
    method Decode(wire: int) returns (s: UserStatus)
      requires Valid()
      modifies this
      ensures Valid()
      ensures (s, statuses) == Resolve(old(statuses), wire, None)
      ensures wire in old(statuses) ==> s == UserStatus(wire, old(statuses)[wire]) && statuses == old(statuses)
    {
      s := FromRawValue(wire);
    }
  }

  /** A client of the registry: whatever is registered, an encoded status decodes to itself, and
      the decoding adds nothing to the registry beyond what building the status did. */
  method EncodeDecodeRoundTrip(registry: StatusRegistry, id: int, name: Option<string>) returns (s: UserStatus, t: UserStatus)
    requires registry.Valid()
    modifies registry
    ensures registry.Valid()
    ensures t == s && s.id == id
    ensures (s, registry.statuses) == Resolve(old(registry.statuses), id, name)
    ensures id in old(registry.statuses) ==> registry.statuses == old(registry.statuses)
  {
    s := registry.Status(id, name);
    t := registry.Decode(Encode(s));
  }
}
