/** A stored profile attribute: a key/text pair owned by one user. */
module Attributes {

  datatype Attribute = Attribute(id: int, text: string, key: string, userID: int)

  /** Which stored attributes a delete query selects. */
  datatype AttributeFilter =
    | OwnedBy(userID: int)
    | OwnedWithKey(userID: int, key: string)
    | OwnedWithId(userID: int, id: int)

  predicate Matches(f: AttributeFilter, a: Attribute) {
    match f
    case OwnedBy(u) => a.userID == u
    case OwnedWithKey(u, k) => a.userID == u && a.key == k
    case OwnedWithId(u, i) => a.userID == u && a.id == i
  }

  /** The attributes a filter selects, in stored order. */
  function Select(attrs: seq<Attribute>, f: AttributeFilter): (r: seq<Attribute>)
    ensures forall a :: a in r <==> a in attrs && Matches(f, a)
    ensures |r| <= |attrs|
  {
    if attrs == [] then []
    else if Matches(f, attrs[0]) then [attrs[0]] + Select(attrs[1..], f)
    else Select(attrs[1..], f)
  }

  /** The attributes that remain after deleting what a filter selects, in stored order. */
  function Remove(attrs: seq<Attribute>, f: AttributeFilter): (r: seq<Attribute>)
    ensures forall a :: a in r <==> a in attrs && !Matches(f, a)
    ensures |r| <= |attrs|
  {
    if attrs == [] then []
    else if Matches(f, attrs[0]) then Remove(attrs[1..], f)
    else [attrs[0]] + Remove(attrs[1..], f)
  }

  /** Deleting removes exactly what selecting finds: the two parts add up to the whole. */
  lemma {:induction false} SelectRemoveSplit(attrs: seq<Attribute>, f: AttributeFilter)
    ensures |Select(attrs, f)| + |Remove(attrs, f)| == |attrs|
    ensures multiset(Select(attrs, f)) + multiset(Remove(attrs, f)) == multiset(attrs)
  {
    if attrs != [] {
      SelectRemoveSplit(attrs[1..], f);
      assert attrs == [attrs[0]] + attrs[1..];
    }
  }

  /** A key names at most one attribute of each user. */
  predicate KeysUniquePerUser(attrs: seq<Attribute>) {
    forall i, j :: 0 <= i < j < |attrs| && attrs[i].userID == attrs[j].userID ==> attrs[i].key != attrs[j].key
  }

  /** Selecting from a table whose keys are unique per user keeps them unique. */
  lemma {:induction false} SelectKeepsKeysUnique(attrs: seq<Attribute>, f: AttributeFilter)
    requires KeysUniquePerUser(attrs)
    ensures KeysUniquePerUser(Select(attrs, f))
    decreases |attrs|
  {
    if attrs != [] {
      var rest := attrs[1..];
      assert KeysUniquePerUser(rest) by {
        forall i, j | 0 <= i < j < |rest| && rest[i].userID == rest[j].userID
          ensures rest[i].key != rest[j].key
        {
          assert rest[i] == attrs[i + 1] && rest[j] == attrs[j + 1];
        }
      }
      SelectKeepsKeysUnique(rest, f);
      if Matches(f, attrs[0]) {
        var r := Select(attrs, f);
        var tail := Select(rest, f);
        assert r == [attrs[0]] + tail;
        forall i, j | 0 <= i < j < |r| && r[i].userID == r[j].userID ensures r[i].key != r[j].key {
          if i == 0 {
            assert r[j] == tail[j - 1] && r[j] in rest;
            var k :| 0 <= k < |rest| && rest[k] == r[j];
            assert attrs[k + 1] == r[j];
          } else {
            assert r[i] == tail[i - 1] && r[j] == tail[j - 1];
          }
        }
      }
    }
  }

  /** `reduce(into: [:]) { $0[a.key] = a.text }`: key to text, a later attribute overwriting an earlier one. */
  function TextByKey(attrs: seq<Attribute>): (m: map<string, string>)
    ensures m.Keys == set a | a in attrs :: a.key
    decreases |attrs|
  {
    if attrs == [] then map[]
    else
      var last := attrs[|attrs| - 1];
      var m := TextByKey(attrs[..|attrs| - 1])[last.key := last.text];
      assert forall a :: a in attrs <==> a in attrs[..|attrs| - 1] || a == last;
      m
  }

  /** Last write wins: a key maps to the text of the last attribute carrying it. */
  lemma {:induction false} TextByKeyLastWins(attrs: seq<Attribute>, i: nat)
    requires i < |attrs|
    requires forall j :: i < j < |attrs| ==> attrs[j].key != attrs[i].key
    ensures attrs[i].key in TextByKey(attrs) && TextByKey(attrs)[attrs[i].key] == attrs[i].text
    decreases |attrs|
  {
    if i < |attrs| - 1 {
      var init := attrs[..|attrs| - 1];
      assert forall j :: i < j < |init| ==> init[j] == attrs[j];
      TextByKeyLastWins(init, i);
    }
  }
}
