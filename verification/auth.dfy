/**
  Authentication and the role gate: `authRequired` turns the Authorization
  header into a caller identity, and `requireRole` refuses callers whose role
  is not listed. Token signature and expiry checking is a parameter `verify`,
  since it is done by a signing library outside this model.
 */
module Auth {
  import opened Base
  import Text

  /**
    The token the server reads from the Authorization header: the second
    field of the header split on single spaces. A missing header reads as the
    empty string, and a missing second field reads as no token. The first
    field (normally "Bearer") is not looked at.
   */
  function BearerToken(header: Option<string>): (token: string)
    ensures ' ' !in token
    ensures header.None? ==> token == ""
  {
    var parts := Text.Split(header.GetOr(""));
    if |parts| >= 2 then parts[1] else ""
  }

  /** A header with no space carries no token, whatever it says. */
  lemma NoSpaceNoToken(h: string)
    requires ' ' !in h
    ensures BearerToken(Some(h)) == ""
  {
  }

  /**
    A header of the form `scheme token[ rest]` yields exactly `token`, for
    every scheme word: the scheme is never compared with "Bearer".
   */
  lemma TokenAfterScheme(scheme: string, token: string, rest: string)
    requires ' ' !in scheme && ' ' !in token
    requires rest == [] || rest[0] == ' '
    ensures BearerToken(Some(scheme + " " + token + rest)) == token
  {
    var h := scheme + " " + token + rest;
    assert h == scheme + " " + (token + rest);
    Text.SplitHead(scheme, token + rest);
    if rest == [] {
      assert token + rest == token;
    } else {
      assert token + rest == token + " " + rest[1..];
      Text.SplitHead(token, rest[1..]);
    }
  }

  /**
    `authRequired`: no token is Unauthorized, a token the verifier rejects is
    InvalidToken, otherwise the identity decoded from the token.
   */
  function Authenticate(header: Option<string>, verify: string -> Option<Identity>): (r: Result<Identity>)
    ensures r == Failure(Unauthorized) <==> BearerToken(header) == ""
    ensures r == Failure(InvalidToken) <==> BearerToken(header) != "" && verify(BearerToken(header)).None?
    ensures r.Success? ==> verify(BearerToken(header)) == Some(r.value)
    ensures r.Success? || r == Failure(Unauthorized) || r == Failure(InvalidToken)
  {
    var token := BearerToken(header);
    if token == "" then Failure(Unauthorized)
    else match verify(token)
      case None => Failure(InvalidToken)
      case Some(who) => Success(who)
  }

  /** A well-formed `Bearer <token>` header authenticates exactly when the verifier accepts the token. */
  lemma AuthenticateBearer(token: string, verify: string -> Option<Identity>)
    requires token != "" && ' ' !in token
    ensures Authenticate(Some("Bearer " + token), verify) ==
      (if verify(token).Some? then Success(verify(token).value) else Failure(InvalidToken))
  {
    TokenAfterScheme("Bearer", token, "");
    assert "Bearer " + token == "Bearer" + " " + token + "";
  }

  /** `requireRole(roles)`: `None` lets the request through, otherwise the refusal. */
  function RequireRole(roles: seq<Role>, caller: Identity): (r: Option<Rejection>)
    ensures r.None? <==> caller.role in roles
    ensures r.Some? ==> r.value == Forbidden
  {
    if caller.role in roles then None else Some(Forbidden)
  }
}
