/** Declared access restrictions: a path literal classified as a prefix or a full path,
    and the restriction record that binds it to a method and allowed permission levels. */
module RouteRestrictions {
  import opened Wrappers
  import opened Http
  import opened UserStatuses

  /** Exactly one of `prefix` and `full` is set by `FromLiteral`. */
  datatype PathRestriction = PathRestriction(prefix: Option<string>, full: Option<string>)

  predicate EndsWithStar(value: string) {
    |value| > 0 && value[|value| - 1] == '*'
  }

  /** `init(stringLiteral:)`: a literal whose last character is `*` is kept, star included,
      as a prefix rule; any other literal, the empty one too, is kept verbatim as a full path. */
  function FromLiteral(value: string): (p: PathRestriction)
    ensures p.prefix.Some? != p.full.Some?
    ensures p.prefix.Some? <==> EndsWithStar(value)
    ensures p.prefix.Some? ==> p.prefix.value == value
    ensures p.full.Some? ==> p.full.value == value
  {
    if EndsWithStar(value) then PathRestriction(Some(value), None) else PathRestriction(None, Some(value))
  }

  /** The repository's own restriction record (Sources/App/Services/RouteRestrictions.swift:3-7);
      an unset method stands for every method. No route builds one: the restriction passed to the
      middleware in UserController.swift:24 resolves to the middleware package's type, which is
      `MiddlewareRestriction` below. */
  datatype RouteRestriction = RouteRestriction(path: PathRestriction, httpMethod: Option<Method>, allowed: seq<UserStatus>)

  /** The literal classification is injective: the stored string is the literal itself. */
  lemma FromLiteralInjective(a: string, b: string)
    requires FromLiteral(a) == FromLiteral(b)
    ensures a == b
  {
    if EndsWithStar(a) {
      assert FromLiteral(a).prefix.value == a;
    } else {
      assert FromLiteral(a).full.value == a;
    }
  }

  /** The empty literal has no last character and becomes a full-path rule for "". */
  lemma EmptyLiteralIsFullPath()
    ensures FromLiteral("") == PathRestriction(None, Some(""))
  {
  }

  /** One segment of a path pattern as the routing middleware takes it: `any` or a constant. */
  datatype PathComponent = AnySegment | Constant(segment: string)

  /** A restriction in the form the route-restriction middleware is configured with. */
  datatype MiddlewareRestriction = MiddlewareRestriction(httpMethod: Option<Method>, path: seq<PathComponent>, allowed: seq<UserStatus>)
}
