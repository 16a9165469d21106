/**
  The identity dependencies every protected route runs before its body: the
  session cookie is decoded, its subject is looked up by email, and the user
  must be active (and, for `require_role`, hold one of the allowed roles).
  A resolved user is returned as its primary key.
 */
module Deps {
  import opened Wrappers
  import opened Models
  import opened Http
  import opened Store
  import opened Security

  /** The 303 to `/login` raised for a missing cookie and for an unknown or inactive user. */
  const ToLogin: HttpException := HttpException(303, Some("/login"))

  const Unauthorized: HttpException := HttpException(401, None)

  const Forbidden: HttpException := HttpException(403, None)

  /** Python truthiness of an optional string: present and not empty. */
  predicate Truthy(s: Option<string>) {
    s.Some? && s.value != ""
  }

  /** `_decode_token`: the subject of a valid token, 401 otherwise. */
  function DecodeToken(p: Primitives, token: string, now: int): (r: Result<string, HttpException>)
    ensures r.Ok? <==> p.jwtDecode(token, now).Some? && Truthy(p.jwtDecode(token, now).value.sub)
    ensures r.Ok? ==> r.value != "" && p.jwtDecode(token, now).value.sub == Some(r.value)
    ensures r.Err? ==> r.error == Unauthorized
  {
    match p.jwtDecode(token, now)
    case None => Err(Unauthorized)
    case Some(claims) =>
      if Truthy(claims.sub) then Ok(claims.sub.value) else Err(Unauthorized)
  }

  /** The user an email names, if that user exists and is active. */
  function ActiveUserByEmail(users: map<int, User>, email: string): (r: Option<int>)
    requires EmailsUnique(users)
    ensures r.Some? ==> r.value in users && users[r.value].email == email && users[r.value].isActive
    ensures r.None? <==> forall id :: id in users && users[id].email == email ==> !users[id].isActive
  {
    match FindUserByEmail(users, email)
    case None => None
    case Some(id) => if users[id].isActive then Some(id) else None
  }

  /** `get_current_user`. */
  function GetCurrentUser(p: Primitives, users: map<int, User>, cookie: Option<string>, now: int)
    : (r: Result<int, HttpException>)
    requires EmailsUnique(users)
    ensures !Truthy(cookie) ==> r == Err(ToLogin)
    ensures r.Ok? ==> r.value in users && users[r.value].isActive
    ensures r.Ok? ==> DecodeToken(p, cookie.value, now) == Ok(users[r.value].email)
    ensures r.Err? ==> r.error in {ToLogin, Unauthorized}
  {
    if !Truthy(cookie) then Err(ToLogin)
    else
      match DecodeToken(p, cookie.value, now)
      case Err(e) => Err(e)
      case Ok(subject) =>
        match ActiveUserByEmail(users, subject)
        case None => Err(ToLogin)
        case Some(id) => Ok(id)
  }

  /** `require_role(*roles)`: the current user, who must hold one of `roles`. */
  function RequireRole(p: Primitives, users: map<int, User>, cookie: Option<string>, now: int, roles: set<Role>)
    : (r: Result<int, HttpException>)
    requires EmailsUnique(users)
    ensures r.Ok? <==> GetCurrentUser(p, users, cookie, now).Ok? &&
                       users[GetCurrentUser(p, users, cookie, now).value].role in roles
    ensures r.Ok? ==> r == GetCurrentUser(p, users, cookie, now)
    ensures r.Err? && GetCurrentUser(p, users, cookie, now).Ok? ==> r.error == Forbidden
  {
    match GetCurrentUser(p, users, cookie, now)
    case Err(e) => Err(e)
    case Ok(id) => if users[id].role in roles then Ok(id) else Err(Forbidden)
  }

  /** `get_current_user_optional`: the same checks, with `None` in place of every failure. */
  function GetCurrentUserOptional(p: Primitives, users: map<int, User>, cookie: Option<string>, now: int)
    : (r: Option<int>)
    requires EmailsUnique(users)
    ensures r.Some? ==> r.value in users && users[r.value].isActive
  {
    if !Truthy(cookie) then None
    else
      match p.jwtDecode(cookie.value, now)
      case None => None
      case Some(claims) =>
        if !Truthy(claims.sub) then None
        else ActiveUserByEmail(users, claims.sub.value)
  }

  /** The optional resolver finds exactly the user the required one does, and nothing when it fails. */
  lemma OptionalAgreesWithRequired(p: Primitives, users: map<int, User>, cookie: Option<string>, now: int)
    requires EmailsUnique(users)
    ensures GetCurrentUserOptional(p, users, cookie, now).Some? <==> GetCurrentUser(p, users, cookie, now).Ok?
    ensures GetCurrentUser(p, users, cookie, now).Ok? ==>
              GetCurrentUserOptional(p, users, cookie, now).value == GetCurrentUser(p, users, cookie, now).value
  {
  }

  /** An inactive user is never resolved, whatever the cookie. */
  lemma InactiveNeverResolves(p: Primitives, users: map<int, User>, cookie: Option<string>, now: int, id: int)
    requires EmailsUnique(users)
    requires id in users && !users[id].isActive
    ensures GetCurrentUser(p, users, cookie, now) != Ok(id)
    ensures GetCurrentUserOptional(p, users, cookie, now) != Some(id)
    ensures forall roles :: RequireRole(p, users, cookie, now, roles) != Ok(id)
  {
  }

  /**
    The cookie issued at login or registration resolves to its user for the
    token's whole lifetime, provided the user is active.
   */
  lemma IssuedTokenResolves(p: Primitives, users: map<int, User>, id: int, issued: int, now: int)
    requires JwtSound(p) && EmailsUnique(users)
    requires id in users && users[id].isActive && users[id].email != ""
    requires issued <= now <= issued + AccessTokenLifetime
    ensures GetCurrentUser(p, users, Some(CreateAccessToken(p, users[id].email, issued)), now) == Ok(id)
  {
    AccessTokenDecodes(p, users[id].email, issued, now);
    assert FindUserByEmail(users, users[id].email) == Some(id);
  }
}
