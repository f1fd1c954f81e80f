/**
  Shared vocabulary of the clinic billing service: optional values, the four
  user roles, the caller identity carried by a bearer token, and the typed
  outcomes every route produces instead of an HTTP status and JSON body.
 */
module Base {

  /** An optional value; `None` stands for an absent (or `null`) JSON field. */
  datatype Option<T> = None | Some(value: T) {
    function GetOr(default: T): T
    {
      match this
      case Some(v) => v
      case None => default
    }
  }

  /** The roles admitted by the users table's CHECK constraint. */
  datatype Role = Admin | Doctor | Patient | Receptionist

  /** The role as it is spelled in the users table and in token payloads. */
  function RoleName(r: Role): string
  {
    match r
    case Admin => "admin"
    case Doctor => "doctor"
    case Patient => "patient"
    case Receptionist => "receptionist"
  }

  /**
    The users table's CHECK constraint read as a parser: a role string is
    accepted exactly when it is the name of one of the four roles, and then
    it denotes that role.
   */
  function ParseRole(s: string): (r: Option<Role>)
    ensures forall k: Role :: RoleName(k) == s ==> r == Some(k)
    ensures r.Some? ==> RoleName(r.value) == s
  {
    if s == "admin" then Some(Admin)
    else if s == "doctor" then Some(Doctor)
    else if s == "patient" then Some(Patient)
    else if s == "receptionist" then Some(Receptionist)
    else None
  }

  /** Role names are distinct, so a role string never denotes two roles. */
  lemma RoleNameInjective(a: Role, b: Role)
    ensures RoleName(a) == RoleName(b) ==> a == b
  {
    if RoleName(a) == RoleName(b) {
      assert ParseRole(RoleName(a)) == Some(a);
      assert ParseRole(RoleName(b)) == Some(b);
    }
  }

  /** The decoded token payload `{sub, role, email, name}`. */
  datatype Identity = Identity(id: int, role: Role, email: string, name: string)

  /** Every way a request can be refused, with the message the server sends. */
  datatype Rejection =
    | Unauthorized        // no bearer token
    | InvalidToken        // token present but signature or expiry check failed
    | Forbidden           // authenticated, but the role or ownership does not allow it
    | BadRequest(message: string)
    | NotFound
    | Conflict            // duplicate email
    | StoreFailure(message: string)  // a constraint the store enforces was violated

  /** The HTTP status the server attaches to each kind of refusal. */
  function StatusCode(e: Rejection): int
  {
    match e
    case Unauthorized => 401
    case InvalidToken => 401
    case Forbidden => 403
    case BadRequest(_) => 400
    case NotFound => 404
    case Conflict => 409
    case StoreFailure(_) => 500
  }

  /** The outcome of a route: a payload or a refusal. */
  datatype Result<T> = Success(value: T) | Failure(error: Rejection)
}
