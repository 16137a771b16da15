/**
 * Signing up and logging in. A signup only files a request; an account
 * exists once the request is approved (see `ManageUsers`). Hashing and
 * checking passwords (bcrypt) and signing tokens are supplied by the caller.
 */
module AuthRouter {
  import opened Wrappers
  import opened Http
  import opened JsonValue
  import opened Tables
  import opened Auth

  const UsernameTaken := "Username already exists"
  const SignupSubmitted := "Signup request submitted"
  const InvalidCredentials := "Invalid credentials"
  const Bearer := "bearer"

  /** The body `signup` returns. */
  datatype SignupReply = SignupReply(id: Uuid, message: string, status: string)

  /** The body `login` returns. */
  datatype TokenReply = TokenReply(accessToken: string, tokenType: string)

  /** Some account or some signup request already uses the name. */
  predicate NameInUse(users: seq<User>, requests: seq<SignupRequest>, username: string) {
    FirstIndex(users, UserName, username) < |users| || FirstIndex(requests, RequestName, username) < |requests|
  }

  /**
   * `signup`. `hash` is `pwd_context.hash` as applied in this call (bcrypt
   * salts, so it is not a fixed function of the password across calls) and
   * `newId` the fresh `uuid.uuid4()` of the new row; the row keeps only the
   * hash of the password. A name already taken by
   * an account or by a request gives 400 and changes nothing; otherwise one
   * pending request is appended.
   */
  method Signup(db: Database, username: string, name: string, password: string, role: Role,
                hash: string -> string, newId: Uuid)
    returns (r: Result<SignupReply, HttpError>)
    requires db.Valid()
    requires forall q :: q in db.requests ==> q.id != newId
    modifies db
    ensures db.Valid()
    ensures db.users == old(db.users) && db.videos == old(db.videos) && db.mcqs == old(db.mcqs)
    ensures NameInUse(old(db.users), old(db.requests), username) ==>
      r == Err(HttpError(BadRequest, UsernameTaken)) && db.requests == old(db.requests)
    ensures !NameInUse(old(db.users), old(db.requests), username) ==>
      && r == Ok(SignupReply(newId, SignupSubmitted, PendingStatus))
      && db.requests == old(db.requests) + [SignupRequest(newId, username, name, hash(password), role, PendingStatus)]
  {
    if NameInUse(db.users, db.requests, username) {
      return Err(HttpError(BadRequest, UsernameTaken));
    }
    var request := SignupRequest(newId, username, name, hash(password), role, PendingStatus);
    NewNameFree(db.users, db.requests, username);
    db.requests := db.requests + [request];
    r := Ok(SignupReply(newId, SignupSubmitted, request.status));
  }

  /** A name `NameInUse` does not find is carried by no account and no request. */
  lemma NewNameFree(users: seq<User>, requests: seq<SignupRequest>, username: string)
    requires !NameInUse(users, requests, username)
    ensures forall u :: u in users ==> u.username != username
    ensures forall q :: q in requests ==> q.username != username
  {
    forall u | u in users ensures u.username != username {
      var j :| 0 <= j < |users| && users[j] == u;
    }
    forall q | q in requests ensures q.username != username {
      var j :| 0 <= j < |requests| && requests[j] == q;
    }
  }

  /** The claims `login` signs for an account. */
  function LoginClaims(u: User): (c: Claims)
    ensures c.Keys == {"sub", "role"}
    ensures c["sub"] == JStr(u.username) && c["role"] == JStr(u.role.Value())
  {
    map["sub" := JStr(u.username), "role" := JStr(u.role.Value())]
  }

  /** The lifetime `login` asks for: `ACCESS_TOKEN_EXPIRE_MINUTES`, in seconds. */
  const LoginLifetime := AccessTokenExpireMinutes * 60

  /**
   * `login`: the first account with the name, when the password checks
   * against its hash, gets a bearer token for its name and role; anything
   * else is 401. `verify` is `pwd_context.verify`, `now` the clock, `encode`
   * the signer.
   */
  function Login(users: seq<User>, username: string, password: string, verify: (string, string) -> bool,
                 now: int, encode: Claims -> string): (r: Result<TokenReply, HttpError>)
    ensures var i := FirstIndex(users, UserName, username);
      r.Ok? <==> i < |users| && verify(password, users[i].passwordHash)
    ensures r.Err? ==> r.error == HttpError(Unauthorized, InvalidCredentials)
    ensures r.Ok? ==> r.value.tokenType == Bearer
  {
    var i := FirstIndex(users, UserName, username);
    if i == |users| || !verify(password, users[i].passwordHash) then Err(HttpError(Unauthorized, InvalidCredentials))
    else Ok(TokenReply(CreateAccessToken(LoginClaims(users[i]), Some(LoginLifetime), now, encode), Bearer))
  }

  /**
   * A token from `login`, read back by a decoder that inverts the signer,
   * authenticates as the account that logged in, with its role, and expires
   * an hour after `now`.
   */
  lemma LoginAuthenticates(users: seq<User>, username: string, password: string, verify: (string, string) -> bool,
                           now: int, encode: Claims -> string, decode: string -> Option<Claims>)
    requires forall c :: decode(encode(c)) == Some(c)
    requires Login(users, username, password, verify, now, encode).Ok?
    ensures var i := FirstIndex(users, UserName, username);
      && i < |users|
      && var token := Login(users, username, password, verify, now, encode).value.accessToken;
      && GetCurrentUser(token, decode) == Ok(TokenData(username, users[i].role.Value()))
      && decode(token).value["exp"] == JNum(now + 3600)
  {
    var i := FirstIndex(users, UserName, username);
    var c := TokenClaims(LoginClaims(users[i]), Some(LoginLifetime), now);
    assert decode(encode(c)) == Some(c);
    assert Get(c, "sub") == JStr(username) && Get(c, "role") == JStr(users[i].role.Value());
  }

  /**
   * With usernames unique, any account whose password checks can log in,
   * and a token from `login` passes a guard that allows that account's role.
   */
  lemma AccountCanLogin(users: seq<User>, u: User, password: string, verify: (string, string) -> bool,
                        now: int, encode: Claims -> string, decode: string -> Option<Claims>)
    requires UniqueBy(users, UserName) && u in users && verify(password, u.passwordHash)
    requires forall c :: decode(encode(c)) == Some(c)
    ensures var r := Login(users, u.username, password, verify, now, encode);
      && r.Ok?
      && RequireRole(r.value.accessToken, decode, [u.role.Value()]) == Ok(TokenData(u.username, u.role.Value()))
  {
    var j :| 0 <= j < |users| && users[j] == u;
    var i := FirstIndex(users, UserName, u.username);
    assert i == j;
    LoginAuthenticates(users, u.username, password, verify, now, encode, decode);
  }
}
