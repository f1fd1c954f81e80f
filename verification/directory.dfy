/**
  The user directory: `GET /api/users?role=R` lists the users of one role
  ordered by name, and `POST /api/auth/register` lets an admin add a user.
  Users are never changed or removed through the API.
 */
module Directory {
  import opened Base
  import opened Tables
  import Text
  import Auth

  // ---------------------------------------------------------------------------
  // ORDER BY name
  // ---------------------------------------------------------------------------

  predicate SortedByName(us: seq<UserSummary>)
  {
    forall i, j :: 0 <= i < j < |us| ==> Text.LexLe(us[i].name, us[j].name)
  }

  /** Places `u` before the first entry whose name does not sort before it. */
  function InsertByName(u: UserSummary, us: seq<UserSummary>): (r: seq<UserSummary>)
    ensures multiset(r) == multiset(us) + multiset{u}
  {
    if us == [] then [u]
    else if Text.LexLe(u.name, us[0].name) then [u] + us
    else
      var rest := InsertByName(u, us[1..]);
      assert us == [us[0]] + us[1..];
      [us[0]] + rest
  }

  lemma {:induction false} InsertSorted(u: UserSummary, us: seq<UserSummary>)
    requires SortedByName(us)
    ensures SortedByName(InsertByName(u, us))
    decreases |us|
  {
    if us == [] {
    } else if Text.LexLe(u.name, us[0].name) {
      forall x: UserSummary | x in multiset(us) ensures Text.LexLe(u.name, x.name) {
        var k :| 0 <= k < |us| && us[k] == x;
        if k > 0 {
          Text.LexLeTransitive(u.name, us[0].name, us[k].name);
        }
      }
      PrependSorted(u, us);
    } else {
      Text.LexLeTotal(u.name, us[0].name);
      InsertSorted(u, us[1..]);
      var rest := InsertByName(u, us[1..]);
      forall x: UserSummary | x in multiset(rest) ensures Text.LexLe(us[0].name, x.name) {
        if x != u {
          assert x in multiset(us[1..]);
          var k :| 0 <= k < |us[1..]| && us[1..][k] == x;
          assert us[k + 1] == x;
        }
      }
      PrependSorted(us[0], rest);
    }
  }

  /** Putting a name that sorts before every entry in front of a sorted list keeps it sorted. */
  lemma PrependSorted(u: UserSummary, us: seq<UserSummary>)
    requires SortedByName(us)
    requires forall x: UserSummary | x in multiset(us) :: Text.LexLe(u.name, x.name)
    ensures SortedByName([u] + us)
  {
  }

  /** `ORDER BY name`: a permutation of the rows that is sorted by name. */
  function SortByName(us: seq<UserSummary>): (r: seq<UserSummary>)
    ensures multiset(r) == multiset(us)
    ensures SortedByName(r)
  {
    if us == [] then []
    else
      var rest := SortByName(us[1..]);
      InsertSorted(us[0], rest);
      assert us == [us[0]] + us[1..];
      InsertByName(us[0], rest)
  }

  // ---------------------------------------------------------------------------
  // GET /api/users?role=R
  // ---------------------------------------------------------------------------

  /** The public view of every stored user. */
  function Summaries(users: map<int, User>): set<UserSummary>
  {
    set k | k in users :: Summary(users[k])
  }

  /** `SELECT id, email, name, role FROM users WHERE role = ? ORDER BY name`. */
  function UsersWithRole(st: Store, role: string): (us: seq<UserSummary>)
    ensures forall i :: 0 <= i < |us| ==> us[i] in Summaries(st.users) && RoleName(us[i].role) == role
    ensures forall k | 1 <= k < st.nextUserId && k in st.users && RoleName(st.users[k].role) == role ::
      Summary(st.users[k]) in us
    ensures SortedByName(us)
    ensures (forall k | k in st.users :: st.users[k].id == k) ==> Distinct(us)
  {
    var ids := RowsDesc(st.users, st.nextUserId - 1, (u: User) => RoleName(u.role) == role);
    var rows := seq(|ids|, i requires 0 <= i < |ids| => Summary(st.users[ids[i]]));
    var r := SortByName(rows);
    SelectedUsersSound(st.users, role, ids, rows, r);
    SelectedUsersComplete(st, role, ids, rows, r);
    SelectedUsersDistinct(st.users, ids, rows, r);
    r
  }

  /** No element occurs twice. */
  predicate Distinct<T(==)>(s: seq<T>)
  {
    forall i, j :: 0 <= i < j < |s| ==> s[i] != s[j]
  }

  /** In a sequence without repeats every value occurs at most once. */
  lemma {:induction false} DistinctCount<T>(s: seq<T>, x: T)
    requires Distinct(s)
    ensures multiset(s)[x] <= 1
    decreases |s|
  {
    if |s| > 0 {
      assert s == [s[0]] + s[1..];
      assert Distinct(s[1..]) by {
        forall i, j | 0 <= i < j < |s[1..]| ensures s[1..][i] != s[1..][j] {
          assert s[1..][i] == s[i + 1] && s[1..][j] == s[j + 1];
        }
      }
      DistinctCount(s[1..], x);
      if x == s[0] {
        assert x !in s[1..] by {
          forall i | 0 <= i < |s[1..]| ensures s[1..][i] != x {
            assert s[1..][i] == s[i + 1];
          }
        }
      }
    }
  }

  /** A sequence in which every value occurs at most once has no repeats. */
  lemma CountDistinct<T>(s: seq<T>)
    ensures (forall x :: multiset(s)[x] <= 1) ==> Distinct(s)
  {
    forall i, j | 0 <= i < j < |s| && s[i] == s[j] ensures multiset(s)[s[j]] >= 2 {
      assert s == s[..j] + [s[j]] + s[j + 1..];
      assert multiset(s) == multiset(s[..j]) + multiset([s[j]]) + multiset(s[j + 1..]);
      assert s[..j][i] == s[j];
      assert multiset(s[..j])[s[j]] >= 1;
    }
  }

  /** Rows selected by distinct primary keys are distinct, and so is any permutation of them. */
  lemma SelectedUsersDistinct(users: map<int, User>, ids: seq<int>, rows: seq<UserSummary>, r: seq<UserSummary>)
    requires forall i :: 0 <= i < |ids| ==> ids[i] in users
    requires forall i, j :: 0 <= i < j < |ids| ==> ids[i] > ids[j]
    requires |rows| == |ids|
    requires forall i :: 0 <= i < |ids| ==> rows[i] == Summary(users[ids[i]])
    requires multiset(r) == multiset(rows)
    ensures (forall k | k in users :: users[k].id == k) ==> Distinct(r)
  {
    if forall k | k in users :: users[k].id == k {
      forall i, j | 0 <= i < j < |rows| ensures rows[i] != rows[j] {
        assert rows[i].id == ids[i] && rows[j].id == ids[j];
      }
      forall x ensures multiset(r)[x] <= 1 {
        DistinctCount(rows, x);
      }
      CountDistinct(r);
    }
  }

  lemma SelectedUsersSound(users: map<int, User>, role: string, ids: seq<int>, rows: seq<UserSummary>, r: seq<UserSummary>)
    requires forall i :: 0 <= i < |ids| ==> ids[i] in users && RoleName(users[ids[i]].role) == role
    requires |rows| == |ids|
    requires forall i :: 0 <= i < |ids| ==> rows[i] == Summary(users[ids[i]])
    requires multiset(r) == multiset(rows)
    ensures forall i :: 0 <= i < |r| ==> r[i] in Summaries(users) && RoleName(r[i].role) == role
  {
    forall i | 0 <= i < |r|
      ensures r[i] in Summaries(users) && RoleName(r[i].role) == role
    {
      assert r[i] in multiset(rows);
      var j :| 0 <= j < |rows| && rows[j] == r[i];
      var k := ids[j];
      assert k in users && rows[j] == Summary(users[k]);
    }
  }

  lemma SelectedUsersComplete(st: Store, role: string, ids: seq<int>, rows: seq<UserSummary>, r: seq<UserSummary>)
    requires forall k | 1 <= k < st.nextUserId && k in st.users && RoleName(st.users[k].role) == role :: k in ids
    requires forall i :: 0 <= i < |ids| ==> ids[i] in st.users
    requires |rows| == |ids|
    requires forall i :: 0 <= i < |ids| ==> rows[i] == Summary(st.users[ids[i]])
    requires multiset(r) == multiset(rows)
    ensures forall k | 1 <= k < st.nextUserId && k in st.users && RoleName(st.users[k].role) == role ::
      Summary(st.users[k]) in r
  {
    forall k | 1 <= k < st.nextUserId && k in st.users && RoleName(st.users[k].role) == role
      ensures Summary(st.users[k]) in r
    {
      var i :| 0 <= i < |ids| && ids[i] == k;
      assert rows[i] == Summary(st.users[k]);
      assert Summary(st.users[k]) in multiset(rows);
    }
  }

  /**
    The users listing. The trimmed role query is validated first, then the
    caller's role: patients may not list, doctors may list patients only,
    admins and receptionists may list any role.
   */
  function ListUsers(caller: Identity, roleQuery: Option<string>, st: Store): (r: Result<seq<UserSummary>>)
    ensures Text.AllSpace(roleQuery.GetOr("")) ==> r == Failure(BadRequest("role query required"))
    ensures r == Failure(Forbidden) <==>
      && !Text.AllSpace(roleQuery.GetOr(""))
      && (caller.role == Patient || (caller.role == Doctor && Text.Trim(roleQuery.GetOr("")) != "patient"))
    ensures r.Success? <==>
      && !Text.AllSpace(roleQuery.GetOr(""))
      && (caller.role == Admin || caller.role == Receptionist
          || (caller.role == Doctor && Text.Trim(roleQuery.GetOr("")) == "patient"))
    ensures r.Success? || r == Failure(Forbidden) || r == Failure(BadRequest("role query required"))
    ensures r.Success? ==> r.value == UsersWithRole(st, Text.Trim(roleQuery.GetOr("")))
  {
    var role := Text.Trim(roleQuery.GetOr(""));
    assert role == "" <==> Text.AllSpace(roleQuery.GetOr(""));
    if role == "" then Failure(BadRequest("role query required"))
    else if caller.role == Patient then Failure(Forbidden)
    else if caller.role == Doctor && role != "patient" then Failure(Forbidden)
    else
      assert caller.role == Admin || caller.role == Receptionist || caller.role == Doctor;
      Success(UsersWithRole(st, role))
  }

  /** A doctor's directory view is the patient list, and only that. */
  lemma DoctorSeesOnlyPatients(caller: Identity, q: string, st: Store)
    requires caller.role == Doctor
    requires ListUsers(caller, Some(q), st).Success?
    ensures forall u :: u in ListUsers(caller, Some(q), st).value ==> u.role == Patient
  {
    var us := ListUsers(caller, Some(q), st).value;
    forall u | u in us ensures u.role == Patient {
      var i :| 0 <= i < |us| && us[i] == u;
      RoleNameInjective(u.role, Patient);
    }
  }

  /** In a valid store the listing holds exactly the users of the requested role. */
  lemma ListUsersExact(caller: Identity, q: string, st: Store, k: int)
    requires Valid(st) && k in st.users
    ensures ListUsers(caller, Some(q), st).Success? ==>
      (Summary(st.users[k]) in ListUsers(caller, Some(q), st).value <==> RoleName(st.users[k].role) == Text.Trim(q))
  {
    var r := ListUsers(caller, Some(q), st);
    if r.Success? && Summary(st.users[k]) in r.value {
      var us := r.value;
      var i :| 0 <= i < |us| && us[i] == Summary(st.users[k]);
      assert us[i] in Summaries(st.users);
      assert RoleName(us[i].role) == Text.Trim(q);
    }
  }

  // ---------------------------------------------------------------------------
  // POST /api/auth/register
  // ---------------------------------------------------------------------------

  /** The request body `{email, name, password, role}`; `None` is a missing field. */
  datatype Registration = Registration(
    email: Option<string>,
    name: Option<string>,
    password: Option<string>,
    role: Option<string>)

  /** A string field is truthy in JavaScript when present and non-empty. */
  predicate Given(field: Option<string>)
  {
    field.Some? && field.value != ""
  }

  predicate Complete(body: Registration)
  {
    Given(body.email) && Given(body.name) && Given(body.password) && Given(body.role)
  }

  /**
    Registration by an admin. The store rejects a role outside the four with
    its CHECK constraint before it looks at the UNIQUE email, and the server
    reports the first as a failure to create and the second as a conflict.
   */
  function Register(caller: Identity, body: Registration, st: Store, now: string): (out: Reply<UserSummary>)
    ensures caller.role != Admin ==> out == Reply(Failure(Forbidden), st)
    ensures caller.role == Admin && !Complete(body) ==> out == Reply(Failure(BadRequest("Missing fields")), st)
    ensures caller.role == Admin && Complete(body) && ParseRole(body.role.value).None? ==>
      out == Reply(Failure(StoreFailure("Failed to create user")), st)
    ensures out.result.Failure? ==> out.store == st
    ensures out.result == Failure(Conflict) <==>
      caller.role == Admin && Complete(body) && ParseRole(body.role.value).Some? && EmailTaken(st.users, body.email.value)
    ensures out.result.Success? <==>
      caller.role == Admin && Complete(body) && ParseRole(body.role.value).Some? && !EmailTaken(st.users, body.email.value)
    ensures out.result.Success? ==>
      var u := out.result.value;
      && u.email == body.email.value && u.name == body.name.value && RoleName(u.role) == body.role.value
      && u.id == st.nextUserId
      && out.store == st.(users := st.users[u.id := User(u.id, u.email, u.name, u.role, now)], nextUserId := u.id + 1)
  {
    match Auth.RequireRole([Admin], caller)
    case Some(e) => Reply(Failure(e), st)
    case None =>
      if !Complete(body) then Reply(Failure(BadRequest("Missing fields")), st)
      else match ParseRole(body.role.value)
        case None => Reply(Failure(StoreFailure("Failed to create user")), st)
        case Some(role) =>
          if EmailTaken(st.users, body.email.value) then Reply(Failure(Conflict), st)
          else
            var id := st.nextUserId;
            var user := User(id, body.email.value, body.name.value, role, now);
            Reply(Success(Summary(user)), st.(users := st.users[id := user], nextUserId := id + 1))
  }

  /** A successful registration adds exactly one user, under a fresh id, and touches nothing else. */
  lemma RegisterAddsOne(caller: Identity, body: Registration, st: Store, now: string)
    requires Valid(st)
    requires Register(caller, body, st, now).result.Success?
    ensures var out := Register(caller, body, st, now);
      && out.result.value.id !in st.users
      && out.store.users.Keys == st.users.Keys + {out.result.value.id}
      && |out.store.users| == |st.users| + 1
      && (forall k :: k in st.users ==> out.store.users[k] == st.users[k])
      && out.store.invoices == st.invoices
  {
  }

  /** Registration, successful or not, keeps a valid store valid. */
  lemma RegisterKeepsValid(caller: Identity, body: Registration, st: Store, now: string)
    requires Valid(st)
    ensures Valid(Register(caller, body, st, now).store)
  {
    var out := Register(caller, body, st, now);
    if out.result.Success? {
      var u := out.result.value;
      var user := User(u.id, u.email, u.name, u.role, now);
      assert out.store == st.(users := st.users[u.id := user], nextUserId := u.id + 1);
      AddUserKeepsValid(st, user);
    }
  }

  /** Registering an email that is already present never changes the store, whatever the other fields say. */
  lemma DuplicateEmailRejected(caller: Identity, body: Registration, st: Store, now: string)
    requires caller.role == Admin && Complete(body)
    requires ParseRole(body.role.value).Some?
    requires exists k :: k in st.users && st.users[k].email == body.email.value
    ensures Register(caller, body, st, now) == Reply(Failure(Conflict), st)
  {
  }
}
