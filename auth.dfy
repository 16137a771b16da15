/**
 * Access tokens and role checks: the claims a token carries, the check that
 * a decoded token names a user and a role, and the role guard put in front
 * of protected routes. Signing and verifying (HS256 with the server's secret)
 * are supplied as `encode` and `decode`.
 */
module Auth {
  import opened Wrappers
  import opened Http
  import opened JsonValue

  /** The claims of a token, as a JSON object. */
  type Claims = map<string, Json>

  const AccessTokenExpireMinutes := 60
  const Algorithm := "HS256"
  const InvalidAuthentication := "Invalid authentication"
  const NotEnoughPermissions := "Not enough permissions"

  /** `TokenData` */
  datatype TokenData = TokenData(username: string, role: string)

  /**
   * `expires_delta or timedelta(minutes=60)`, in seconds: a zero delta is
   * falsy, so it also falls back to the default.
   */
  function ExpiryDelta(expiresDelta: Option<int>): (d: int)
    ensures expiresDelta == None || expiresDelta == Some(0) ==> d == AccessTokenExpireMinutes * 60
    ensures expiresDelta.Some? && expiresDelta.value != 0 ==> d == expiresDelta.value
  {
    if expiresDelta.Some? && expiresDelta.value != 0 then expiresDelta.value
    else AccessTokenExpireMinutes * 60
  }

  /** The claims `create_access_token` signs: a copy of `data` with `exp` set. */
  function TokenClaims(data: Claims, expiresDelta: Option<int>, now: int): (c: Claims)
    ensures c.Keys == data.Keys + {"exp"}
    ensures c["exp"] == JNum(now + ExpiryDelta(expiresDelta))
    ensures forall k :: k in data && k != "exp" ==> c[k] == data[k]
  {
    data["exp" := JNum(now + ExpiryDelta(expiresDelta))]
  }

  /** `create_access_token`, with `datetime.utcnow()` as `now` (in seconds). */
  function CreateAccessToken(data: Claims, expiresDelta: Option<int>, now: int, encode: Claims -> string): string
  {
    encode(TokenClaims(data, expiresDelta, now))
  }

  /**
   * `get_current_user`. `decode` gives `None` for any JWT error (a bad
   * signature, an expired token, a malformed one). Missing or `null` claims
   * give 401; a claim that is not a string fails the `TokenData` validation,
   * which nothing catches, so the request ends in 500.
   */
  function GetCurrentUser(token: string, decode: string -> Option<Claims>): (r: Result<TokenData, HttpError>)
    ensures decode(token).None? ==> r == Err(HttpError(Unauthorized, InvalidAuthentication))
    ensures decode(token).Some? && (Get(decode(token).value, "sub") == JNull || Get(decode(token).value, "role") == JNull)
      ==> r == Err(HttpError(Unauthorized, InvalidAuthentication))
    ensures r.Ok? <==>
      && decode(token).Some?
      && Get(decode(token).value, "sub").JStr?
      && Get(decode(token).value, "role").JStr?
    ensures r.Ok? ==> r.value == TokenData(decode(token).value["sub"].s, decode(token).value["role"].s)
  {
    match decode(token)
    case None => Err(HttpError(Unauthorized, InvalidAuthentication))
    case Some(payload) =>
      var username := Get(payload, "sub");
      var role := Get(payload, "role");
      if username == JNull || role == JNull then Err(HttpError(Unauthorized, InvalidAuthentication))
      else if !username.JStr? || !role.JStr? then Err(Unhandled)
      else Ok(TokenData(username.s, role.s))
  }

  /** `role_checker`: the user passes unchanged exactly when their role is allowed. */
  function RoleChecker(user: TokenData, allowedRoles: seq<string>): (r: Result<TokenData, HttpError>)
    ensures r.Err? <==> user.role !in allowedRoles
    ensures r.Err? ==> r.error == HttpError(Forbidden, NotEnoughPermissions)
    ensures r.Ok? ==> r.value == user
  {
    if user.role !in allowedRoles then Err(HttpError(Forbidden, NotEnoughPermissions)) else Ok(user)
  }

  /** `require_role(allowed_roles)` in front of a route: authenticate, then check the role. */
  function RequireRole(token: string, decode: string -> Option<Claims>, allowedRoles: seq<string>)
    : (r: Result<TokenData, HttpError>)
  {
    match GetCurrentUser(token, decode)
    case Err(e) => Err(e)
    case Ok(user) => RoleChecker(user, allowedRoles)
  }

  /**
   * A request passes the guard exactly when its token decodes to string
   * `sub` and `role` claims and that role is allowed; an allowed role never
   * gets 403, and a token that does not decode always gets 401.
   */
  lemma RequireRoleDecision(token: string, decode: string -> Option<Claims>, allowedRoles: seq<string>)
    ensures var r := RequireRole(token, decode, allowedRoles);
      && (r.Ok? <==>
           && decode(token).Some?
           && Get(decode(token).value, "sub").JStr?
           && Get(decode(token).value, "role").JStr?
           && decode(token).value["role"].s in allowedRoles)
      && (decode(token).None? ==> r == Err(HttpError(Unauthorized, InvalidAuthentication)))
      && (r == Err(HttpError(Forbidden, NotEnoughPermissions)) ==> GetCurrentUser(token, decode).Ok?)
  {
  }

  /**
   * Whatever the caller puts in `data` besides `exp` comes back from a
   * faithful decoder; `exp` is always now plus the effective delta.
   */
  lemma TokenCarriesData(data: Claims, expiresDelta: Option<int>, now: int,
                         encode: Claims -> string, decode: string -> Option<Claims>)
    requires decode(encode(TokenClaims(data, expiresDelta, now))) == Some(TokenClaims(data, expiresDelta, now))
    ensures var p := decode(CreateAccessToken(data, expiresDelta, now, encode));
      && p.Some?
      && (forall k :: k in data && k != "exp" ==> k in p.value && p.value[k] == data[k])
      && p.value["exp"] == JNum(now + ExpiryDelta(expiresDelta))
  {
  }
}
