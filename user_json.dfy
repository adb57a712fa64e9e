/** The JSON view of a user returned by the routes: no password, the level as its integer id. */
module UserResponses {
  import opened Wrappers
  import opened Http
  import opened UserStatuses
  import opened Users
  import opened Attributes
  import opened UserAttributes

  datatype UserResponse = UserResponse(
    id: Option<int>,
    firstname: Option<string>,
    lastname: Option<string>,
    emailCode: Option<string>,
    email: string,
    language: string,
    confirmed: bool,
    permissionLevel: int,
    attributes: Option<seq<Attribute>>)

  datatype UserSuccessResponse = UserSuccessResponse(status: string, user: UserResponse)

  /** `UserResponse.init(user:attributes:)`: the visible fields copied, the level by its wire form. */
  function ResponseOf(u: UserRecord, attributes: Option<seq<Attribute>>): (r: UserResponse)
    ensures r.id == u.id && r.firstname == u.firstname && r.lastname == u.lastname
    ensures r.emailCode == u.emailCode && r.email == u.email && r.language == u.language
    ensures r.confirmed == u.confirmed && r.permissionLevel == Encode(u.permissionLevel)
    ensures r.attributes == attributes
  {
    UserResponse(u.id, u.firstname, u.lastname, u.emailCode, u.email, u.language, u.confirmed,
                 u.permissionLevel.id, attributes)
  }

  /** Two users give the same response exactly when they agree on everything the response shows:
      the password and the deletion date never reach it, and the level only by its id. */
  lemma ResponseReveals(u: UserRecord, v: UserRecord, a: Option<seq<Attribute>>, b: Option<seq<Attribute>>)
    ensures ResponseOf(u, a) == ResponseOf(v, b) <==>
      a == b && u.permissionLevel.id == v.permissionLevel.id &&
      u.(password := v.password, deletedAt := v.deletedAt, permissionLevel := v.permissionLevel) == v
  {
  }

  /** `response(on:forProfile:)`: always "success"; attributes are left out unless the response is
      for the profile, in which case they are the user's own (which needs the user's id). */
  function Respond(u: UserRecord, attrs: seq<Attribute>, forProfile: bool): (r: Result<UserSuccessResponse, Failure>)
    ensures !forProfile ==> r == Success(UserSuccessResponse("success", ResponseOf(u, None)))
    ensures forProfile ==> (r.Failure? <==> u.id.None?) && (r.Failure? ==> r.error == MissingId)
    ensures forProfile && r.Success? ==>
      r.value.status == "success" && r.value.user == ResponseOf(u, Some(AttributesOf(attrs, u).value))
  {
    if !forProfile then Success(UserSuccessResponse("success", ResponseOf(u, None)))
    else match AttributesOf(attrs, u)
      case Failure(e) => Failure(e)
      case Success(own) => Success(UserSuccessResponse("success", ResponseOf(u, Some(own))))
  }
}
