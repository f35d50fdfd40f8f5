/** The request guards of the API: reading the bearer token from the
    `Authorization` header, resolving it to an active user, and the per-route
    role check. Signature verification of the token is a parameter. */
module Auth {
  import opened Basics
  import opened Strings
  import opened Seqs
  import opened Models
  import opened Errors

  const BearerPrefix: string := "Bearer "

  /** The second space-separated field of a header known to start with the prefix
      is the text after the prefix up to the next space. */
  lemma BearerFields(header: string)
    requires StartsWith(header, BearerPrefix)
    ensures |Split(header, ' ')| >= 2
    ensures var rest := header[|BearerPrefix|..];
      Split(header, ' ')[1] == rest[..IndexOf(rest, ' ')]
  {
    var rest := header[|BearerPrefix|..];
    assert header == "Bearer" + [' '] + rest;
    SplitCons("Bearer", ' ', rest);
    SplitHead(rest, ' ');
  }

  /** The token of `authenticate`: the header must be present and start with
      `Bearer `, and the token is its second space-separated field. */
  function BearerToken(header: Option<string>): (r: Result<string, ApiError>)
    ensures r.Ok? <==> header.Some? && StartsWith(header.value, BearerPrefix)
    ensures r.Err? ==> r.error == Unauthorized
    ensures r.Ok? ==> ' ' !in r.value
    ensures r.Ok? ==> var rest := header.value[|BearerPrefix|..];
      r.value == rest[..IndexOf(rest, ' ')]
  {
    if header.None? || !StartsWith(header.value, BearerPrefix) then Err(Unauthorized)
    else
      BearerFields(header.value);
      Ok(Split(header.value, ' ')[1])
  }

  /** A header built from a space-free token yields that token back. */
  lemma BearerRoundTrip(token: string)
    requires ' ' !in token
    ensures BearerToken(Some(BearerPrefix + token)) == Ok(token)
  {
    var h := BearerPrefix + token;
    assert h[..|BearerPrefix|] == BearerPrefix;
    assert h[|BearerPrefix|..] == token;
    assert IndexOf(token, ' ') == |token|;
    assert token[..|token|] == token;
  }

  /** `req.user` as `authenticate` attaches it. */
  datatype RequestUser = RequestUser(
    id: Id,
    email: string,
    firstName: string,
    lastName: string,
    role: Option<string>,
    roleId: Option<Id>)

  /** `User.findOne({ where: { id, isActive: true } })`. */
  function FindActiveUser(us: seq<User>, id: Id): (r: Option<User>)
    ensures r.Some? ==> r.value in us && r.value.id == id && r.value.isActive
    ensures r.None? <==> forall u :: u in us ==> !(u.id == id && u.isActive)
  {
    var i := FirstIndex(us, (u: User) => u.id == id && u.isActive);
    if i < |us| then Some(us[i]) else None
  }

  /** The role name carried on the request, or `None` when the user has no role. */
  function RoleNameOf(roles: seq<Role>, roleId: Option<Id>): (r: Option<string>)
    ensures r.Some? <==> roleId.Some? && exists x :: x in roles && x.id == roleId.value
    ensures r.Some? ==> exists x :: x in roles && x.id == roleId.value && x.name == r.value
  {
    if roleId.None? then None
    else
      match FindRole(roles, roleId.value)
      case None => None
      case Some(x) => Some(x.name)
  }

  /** `authenticate`. `verify` stands for `jwt.verify` with the server secret: it
      yields the user id of a valid, unexpired token and `None` otherwise. */
  function Authenticate(header: Option<string>, verify: string -> Option<Id>,
                        users: seq<User>, roles: seq<Role>): (r: Result<RequestUser, ApiError>)
    ensures r.Err? ==> r.error == Unauthorized
    ensures r.Ok? <==>
      && BearerToken(header).Ok?
      && verify(BearerToken(header).value).Some?
      && exists u :: u in users && u.id == verify(BearerToken(header).value).value && u.isActive
    ensures r.Ok? ==>
      && r.value.id == verify(BearerToken(header).value).value
      && (exists u :: u in users && u.isActive && u.id == r.value.id
                      && r.value.email == u.email && r.value.roleId == u.roleId
                      && r.value.firstName == u.firstName && r.value.lastName == u.lastName)
      && r.value.role == RoleNameOf(roles, r.value.roleId)
  {
    match BearerToken(header)
    case Err(e) => Err(e)
    case Ok(token) =>
      match verify(token)
      case None => Err(Unauthorized)
      case Some(id) =>
        match FindActiveUser(users, id)
        case None => Err(Unauthorized)
        case Some(u) => Ok(RequestUser(u.id, u.email, u.firstName, u.lastName, RoleNameOf(roles, u.roleId), u.roleId))
  }

  /** `authorize(...allowed)`: a request without a user or without a (non-empty)
      role name is unauthorized; a role outside the list is forbidden. */
  function Authorize(user: Option<RequestUser>, allowed: seq<string>): (r: Result<(), ApiError>)
    ensures r.Ok? <==> user.Some? && Truthy(user.value.role) && user.value.role.value in allowed
    ensures r == Err(Unauthorized) <==> user.None? || !Truthy(user.value.role)
    ensures r == Err(Forbidden) <==> user.Some? && Truthy(user.value.role) && user.value.role.value !in allowed
  {
    if user.None? || !Truthy(user.value.role) then Err(Unauthorized)
    else if user.value.role.value !in allowed then Err(Forbidden)
    else Ok(())
  }

  /** Widening a route's role list never turns an admitted request away. */
  lemma AuthorizeMonotone(user: Option<RequestUser>, allowed: seq<string>, wider: seq<string>)
    requires forall x :: x in allowed ==> x in wider
    ensures Authorize(user, allowed).Ok? ==> Authorize(user, wider).Ok?
  {
  }

  /** A user whose role row is missing passes authentication but is turned away
      as unauthorized by every role check, whatever the route allows. */
  lemma RolelessUserUnauthorized(header: Option<string>, verify: string -> Option<Id>,
                                 users: seq<User>, roles: seq<Role>, allowed: seq<string>)
    requires Authenticate(header, verify, users, roles).Ok?
    requires Authenticate(header, verify, users, roles).value.roleId.None?
    ensures Authorize(Some(Authenticate(header, verify, users, roles).value), allowed) == Err(Unauthorized)
  {
  }
}
