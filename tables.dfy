/**
 * The relational tables of the application (users, signup_requests, videos,
 * mcqs) and the database session that the route handlers read and change.
 * A table is a sequence of rows in the order a query without ORDER BY returns
 * them; `.first()` is the first matching row and `.all()` every matching row.
 */
module Tables {
  import opened Wrappers
  import opened JsonValue

  /** A UUID in the canonical text form that `str(uuid)` produces. */
  type Uuid = string

  /** `UserRole`: the enumeration stored in the role columns. */
  datatype Role = Teacher | Student {
    /** `role.value` */
    function Value(): (v: string)
      ensures v == "teacher" || v == "student"
    {
      match this
      case Teacher => "teacher"
      case Student => "student"
    }
  }

  /** A row of `users`; `created_at` and `is_active` are not used by the handlers modelled. */
  datatype User = User(id: Uuid, username: string, name: string, passwordHash: string, role: Role)

  /** A row of `signup_requests`; `status` defaults to `"pending"`. */
  datatype SignupRequest = SignupRequest(
    id: Uuid, username: string, name: string, passwordHash: string, role: Role, status: string)

  /** A row of `videos`: the columns the modelled handlers read. */
  datatype Video = Video(id: Uuid, title: string, transcript: Option<string>)

  /**
   * A row of `mcqs`. `question`, `options` and `answer` hold whatever the
   * generator stored; `options` is JSON `null` for a true/false question.
   */
  datatype Mcq = Mcq(id: Uuid, videoTitle: string, question: Json, options: Json, answer: Json, createdAt: int)

  const PendingStatus := "pending"

  function UserId(u: User): Uuid { u.id }
  function UserName(u: User): string { u.username }
  function RequestId(q: SignupRequest): Uuid { q.id }
  function RequestName(q: SignupRequest): string { q.username }
  function VideoTitle(v: Video): string { v.title }
  function McqId(m: Mcq): Uuid { m.id }
  function McqVideoTitle(m: Mcq): string { m.videoTitle }

  /** `query(T).filter(key == k).first()`: the position of the first such row, or `|rows|`. */
  function FirstIndex<T>(rows: seq<T>, key: T -> string, k: string): (i: nat)
    ensures i <= |rows|
    ensures i < |rows| ==> key(rows[i]) == k
    ensures forall j :: 0 <= j < i ==> key(rows[j]) != k
  {
    if rows == [] then 0
    else if key(rows[0]) == k then 0
    else 1 + FirstIndex(rows[1..], key, k)
  }

  /** `query(T).filter(key == k).all()`: every matching row, in table order. */
  function FilterBy<T(!new)>(rows: seq<T>, key: T -> string, k: string): (r: seq<T>)
    ensures |r| <= |rows|
    ensures forall x :: x in r <==> x in rows && key(x) == k
    ensures r == [] <==> forall j :: 0 <= j < |rows| ==> key(rows[j]) != k
  {
    if rows == [] then []
    else if key(rows[0]) == k then [rows[0]] + FilterBy(rows[1..], key, k)
    else FilterBy(rows[1..], key, k)
  }

  /** No two rows share a key: a primary key or a `unique=True` column. */
  ghost predicate UniqueBy<T>(rows: seq<T>, key: T -> string) {
    forall i, j :: 0 <= i < j < |rows| ==> key(rows[i]) != key(rows[j])
  }

  /** The row at `i` removed, everything else kept in order (`db.delete(row)`). */
  function RemoveAt<T(!new)>(rows: seq<T>, i: nat): (r: seq<T>)
    requires i < |rows|
    ensures |r| == |rows| - 1
    ensures forall x :: x in r ==> x in rows
  {
    rows[..i] + rows[i + 1..]
  }

  /** Position `j` of `RemoveAt(rows, i)` holds the row that was at `j` before `i` and at `j + 1` from `i` on. */
  lemma RemoveAtIndex<T(!new)>(rows: seq<T>, i: nat, j: nat)
    requires i < |rows| && j < |rows| - 1
    ensures RemoveAt(rows, i)[j] == if j < i then rows[j] else rows[j + 1]
  {
  }

  /** With a unique key, removing the row carrying `k` keeps exactly the rows whose key differs. */
  lemma RemoveUnique<T(!new)>(rows: seq<T>, key: T -> string, i: nat)
    requires i < |rows| && UniqueBy(rows, key)
    ensures UniqueBy(RemoveAt(rows, i), key)
    ensures forall x :: x in RemoveAt(rows, i) <==> x in rows && key(x) != key(rows[i])
  {
    var r := RemoveAt(rows, i);
    forall a, b | 0 <= a < b < |r| ensures key(r[a]) != key(r[b]) {
      RemoveAtIndex(rows, i, a);
      RemoveAtIndex(rows, i, b);
    }
    forall x | x in r ensures key(x) != key(rows[i]) {
      var j :| 0 <= j < |r| && r[j] == x;
      RemoveAtIndex(rows, i, j);
    }
    forall x | x in rows && key(x) != key(rows[i]) ensures x in r {
      var j :| 0 <= j < |rows| && rows[j] == x;
      if j < i {
        RemoveAtIndex(rows, i, j);
      } else {
        RemoveAtIndex(rows, i, j - 1);
      }
    }
  }

  /**
   * No username is both an account and a signup request, and each table keeps
   * its usernames unique (the `unique=True` columns).
   */
  ghost predicate UsernamesDisjoint(users: seq<User>, requests: seq<SignupRequest>) {
    && UniqueBy(users, UserName)
    && UniqueBy(requests, RequestName)
    && forall u, q :: u in users && q in requests ==> u.username != q.username
  }

  /** The database behind a session. */
  class Database {
    var users: seq<User>
    var requests: seq<SignupRequest>
    var videos: seq<Video>
    var mcqs: seq<Mcq>

    /** The constraints the schema and the handlers together maintain. */
    ghost predicate Valid()
      reads this
    {
      && UniqueBy(users, UserId)
      && UniqueBy(requests, RequestId)
      && UniqueBy(mcqs, McqId)
      && UsernamesDisjoint(users, requests)
    }

    /** `Base.metadata.create_all`: every table exists and is empty. */
    constructor ()
      ensures Valid()
      ensures users == [] && requests == [] && videos == [] && mcqs == []
    {
      users, requests, videos, mcqs := [], [], [], [];
    }
  }
}
