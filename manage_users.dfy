/**
 * Deciding signup requests: listing the pending ones, and turning a request
 * into an account (approve) or dropping it (decline). The router is mounted
 * without any role guard and neither handler takes a token, so any caller,
 * signed in or not, can list and decide requests. `GuardedManageUser` is the
 * same handler behind the teacher guard the other routers that change data
 * are mounted with.
 */
module ManageUsers {
  import opened Wrappers
  import opened Http
  import opened JsonValue
  import opened PyStr
  import opened Tables
  import opened Auth
  import opened AuthRouter

  const RequestNotFound := "Signup request not found"
  const InvalidAction := "Invalid action. Use APPROVE or DECLINE."
  const Approve := "APPROVE"
  const Decline := "DECLINE"

  /** `require_role(["teacher"])`, as it guards the other routers that change data. */
  const TeacherOnly := ["teacher"]

  /** One entry of the pending-requests listing. */
  datatype PendingView = PendingView(id: Uuid, role: string, username: string, name: string)

  function ViewOf(q: SignupRequest): (v: PendingView)
    ensures v.id == q.id && v.role == q.role.Value() && v.username == q.username && v.name == q.name
  {
    PendingView(q.id, q.role.Value(), q.username, q.name)
  }

  /** `get_pending_requests`: every request whose status is `"pending"`, in table order. */
  function PendingRequests(requests: seq<SignupRequest>): (r: seq<PendingView>)
    ensures |r| <= |requests|
    ensures forall v :: v in r <==> exists q :: q in requests && q.status == PendingStatus && v == ViewOf(q)
  {
    if requests == [] then []
    else
      var rest := PendingRequests(requests[1..]);
      assert forall q :: q in requests <==> q == requests[0] || q in requests[1..];
      if requests[0].status == PendingStatus then [ViewOf(requests[0])] + rest else rest
  }

  /** A request filed by `signup` shows up at the end of the listing. */
  lemma {:induction false} NewRequestListed(requests: seq<SignupRequest>, q: SignupRequest)
    requires q.status == PendingStatus
    ensures PendingRequests(requests + [q]) == PendingRequests(requests) + [ViewOf(q)]
  {
    if requests == [] {
      assert [] + [q] == [q];
    } else {
      assert (requests + [q])[1..] == requests[1..] + [q];
      NewRequestListed(requests[1..], q);
    }
  }

  function ApprovedMessage(username: string): string {
    "User " + username + " approved and created"
  }

  function DeclinedMessage(username: string): string {
    "Signup request for " + username + " declined"
  }

  /** `action.upper() == "APPROVE"` */
  predicate IsApprove(action: string) {
    UpperEquals(action, Approve)
  }

  /** `action.upper() == "DECLINE"` */
  predicate IsDecline(action: string) {
    UpperEquals(action, Decline)
  }

  /** The account an approved request becomes, under the fresh id `newUserId`. */
  function AccountFor(q: SignupRequest, newUserId: Uuid): (u: User)
    ensures u.id == newUserId
    ensures u.username == q.username && u.name == q.name && u.passwordHash == q.passwordHash && u.role == q.role
  {
    User(newUserId, q.username, q.name, q.passwordHash, q.role)
  }

  /**
   * `manage_user`. 404 when no request has the id; then, comparing
   * `action.upper()`: APPROVE adds the account and removes the request,
   * DECLINE only removes the request, and anything else is 400 with nothing
   * changed. `newUserId` is the fresh `uuid.uuid4()` of the account.
   */
  method ManageUser(db: Database, requestId: Uuid, action: string, newUserId: Uuid)
    returns (r: Result<string, HttpError>)
    requires db.Valid()
    requires forall u :: u in db.users ==> u.id != newUserId
    modifies db
    ensures db.Valid()
    ensures db.videos == old(db.videos) && db.mcqs == old(db.mcqs)
    ensures var i := FirstIndex(old(db.requests), RequestId, requestId);
      if i == |old(db.requests)| then
        r == Err(HttpError(NotFound, RequestNotFound))
        && db.users == old(db.users) && db.requests == old(db.requests)
      else
        var q := old(db.requests)[i];
        if IsApprove(action) then
          && r == Ok(ApprovedMessage(q.username))
          && db.users == old(db.users) + [AccountFor(q, newUserId)]
          && db.requests == RemoveAt(old(db.requests), i)
        else if IsDecline(action) then
          && r == Ok(DeclinedMessage(q.username))
          && db.users == old(db.users)
          && db.requests == RemoveAt(old(db.requests), i)
        else
          && r == Err(HttpError(BadRequest, InvalidAction))
          && db.users == old(db.users) && db.requests == old(db.requests)
  {
    var i := FirstIndex(db.requests, RequestId, requestId);
    if i == |db.requests| {
      return Err(HttpError(NotFound, RequestNotFound));
    }
    var q := db.requests[i];
    if IsApprove(action) {
      ApproveKeepsValid(db.users, db.requests, i, newUserId);
      db.users := db.users + [AccountFor(q, newUserId)];
      db.requests := RemoveAt(db.requests, i);
      r := Ok(ApprovedMessage(q.username));
    } else if IsDecline(action) {
      DeclineKeepsValid(db.users, db.requests, i);
      db.requests := RemoveAt(db.requests, i);
      r := Ok(DeclinedMessage(q.username));
    } else {
      r := Err(HttpError(BadRequest, InvalidAction));
    }
  }

  /** Dropping a request keeps ids and usernames unique and apart. */
  lemma DeclineKeepsValid(users: seq<User>, requests: seq<SignupRequest>, i: nat)
    requires i < |requests| && UniqueBy(requests, RequestId) && UsernamesDisjoint(users, requests)
    ensures UniqueBy(RemoveAt(requests, i), RequestId)
    ensures UsernamesDisjoint(users, RemoveAt(requests, i))
  {
    RemoveUnique(requests, RequestId, i);
    RemoveUnique(requests, RequestName, i);
  }

  /**
   * Moving a request into the accounts keeps ids and usernames unique and
   * apart: the name was held by that request alone.
   */
  lemma ApproveKeepsValid(users: seq<User>, requests: seq<SignupRequest>, i: nat, newUserId: Uuid)
    requires i < |requests|
    requires UniqueBy(users, UserId) && UniqueBy(requests, RequestId) && UsernamesDisjoint(users, requests)
    requires forall u :: u in users ==> u.id != newUserId
    ensures UniqueBy(users + [AccountFor(requests[i], newUserId)], UserId)
    ensures UniqueBy(RemoveAt(requests, i), RequestId)
    ensures UsernamesDisjoint(users + [AccountFor(requests[i], newUserId)], RemoveAt(requests, i))
  {
    var q := requests[i];
    var users' := users + [AccountFor(q, newUserId)];
    var rest := RemoveAt(requests, i);
    RemoveUnique(requests, RequestId, i);
    RemoveUnique(requests, RequestName, i);
    assert q in requests;
    forall a, b | 0 <= a < b < |users'| ensures UserId(users'[a]) != UserId(users'[b]) {
      if b == |users| { assert users[a] in users; }
    }
    forall a, b | 0 <= a < b < |users'| ensures UserName(users'[a]) != UserName(users'[b]) {
      if b == |users| { assert users[a] in users; }
    }
    forall u, p | u in users' && p in rest ensures u.username != p.username {
      if u !in users {
        assert u.username == RequestName(q);
      }
    }
  }

  /** A request is listed as pending until it is decided, and no longer afterwards when its id was unique. */
  lemma DecidedRequestNotListed(requests: seq<SignupRequest>, i: nat)
    requires i < |requests| && UniqueBy(requests, RequestId)
    ensures forall v :: v in PendingRequests(RemoveAt(requests, i)) ==> v.id != requests[i].id
  {
    RemoveUnique(requests, RequestId, i);
  }

  /**
   * Once a request is approved, its owner can log in with the password the
   * request's hash was made from, and the token carries the requested role.
   */
  lemma ApprovedCanLogin(users: seq<User>, requests: seq<SignupRequest>, i: nat, newUserId: Uuid,
                         password: string, verify: (string, string) -> bool,
                         now: int, encode: Claims -> string, decode: string -> Option<Claims>)
    requires i < |requests|
    requires UniqueBy(users, UserId) && UniqueBy(requests, RequestId) && UsernamesDisjoint(users, requests)
    requires forall u :: u in users ==> u.id != newUserId
    requires verify(password, requests[i].passwordHash)
    requires forall c :: decode(encode(c)) == Some(c)
    ensures var q := requests[i];
      var r := Login(users + [AccountFor(q, newUserId)], q.username, password, verify, now, encode);
      && r.Ok?
      && GetCurrentUser(r.value.accessToken, decode) == Ok(TokenData(q.username, q.role.Value()))
  {
    var u := AccountFor(requests[i], newUserId);
    ApproveKeepsValid(users, requests, i, newUserId);
    AccountCanLogin(users + [u], u, password, verify, now, encode, decode);
  }

  /**
   * As mounted, `manage_user` asks for no credentials: whoever filed a
   * signup request as a teacher can approve it without signing in, and the
   * account that results then passes the teacher guard.
   */
  lemma SelfApprovalGrantsTeacher(users: seq<User>, requests: seq<SignupRequest>, i: nat, newUserId: Uuid,
                                  password: string, verify: (string, string) -> bool,
                                  now: int, encode: Claims -> string, decode: string -> Option<Claims>)
    requires i < |requests| && requests[i].role == Teacher
    requires UniqueBy(users, UserId) && UniqueBy(requests, RequestId) && UsernamesDisjoint(users, requests)
    requires forall u :: u in users ==> u.id != newUserId
    requires verify(password, requests[i].passwordHash)
    requires forall c :: decode(encode(c)) == Some(c)
    ensures var r := Login(users + [AccountFor(requests[i], newUserId)], requests[i].username, password, verify, now, encode);
      && r.Ok?
      && RequireRole(r.value.accessToken, decode, TeacherOnly).Ok?
  {
    ApprovedCanLogin(users, requests, i, newUserId, password, verify, now, encode, decode);
  }

  /**
   * `manage_user` behind `require_role(["teacher"])`: a caller without a
   * teacher's token gets the guard's 401 or 403 and no table changes;
   * a teacher gets exactly what `ManageUser` does.
   */
  method GuardedManageUser(db: Database, token: string, decode: string -> Option<Claims>,
                           requestId: Uuid, action: string, newUserId: Uuid)
    returns (r: Result<string, HttpError>)
    requires db.Valid()
    requires forall u :: u in db.users ==> u.id != newUserId
    modifies db
    ensures db.Valid()
    ensures db.videos == old(db.videos) && db.mcqs == old(db.mcqs)
    ensures RequireRole(token, decode, TeacherOnly).Err? ==>
      && r == Err(RequireRole(token, decode, TeacherOnly).error)
      && db.users == old(db.users) && db.requests == old(db.requests)
    ensures db.users != old(db.users) || db.requests != old(db.requests) ==>
      && decode(token).Some?
      && Get(decode(token).value, "role") == JStr("teacher")
    ensures RequireRole(token, decode, TeacherOnly).Ok? ==>
      var i := FirstIndex(old(db.requests), RequestId, requestId);
      if i == |old(db.requests)| then
        r == Err(HttpError(NotFound, RequestNotFound))
        && db.users == old(db.users) && db.requests == old(db.requests)
      else
        var q := old(db.requests)[i];
        if IsApprove(action) then
          && r == Ok(ApprovedMessage(q.username))
          && db.users == old(db.users) + [AccountFor(q, newUserId)]
          && db.requests == RemoveAt(old(db.requests), i)
        else if IsDecline(action) then
          && r == Ok(DeclinedMessage(q.username))
          && db.users == old(db.users)
          && db.requests == RemoveAt(old(db.requests), i)
        else
          && r == Err(HttpError(BadRequest, InvalidAction))
          && db.users == old(db.users) && db.requests == old(db.requests)
  {
    var guard := RequireRole(token, decode, TeacherOnly);
    RequireRoleDecision(token, decode, TeacherOnly);
    if guard.Err? {
      return Err(guard.error);
    }
    r := ManageUser(db, requestId, action, newUserId);
  }
}
