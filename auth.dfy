/**
 * Authentication gate (src/core/auth.js): the bearer token taken from the
 * Authorization header, the outcome of `authRequired`, and the `requireRole` check.
 * `jwt.verify` is a parameter: any function from a token to the decoded payload,
 * or None where verification throws. `signToken` only calls `jwt.sign` and is not modelled.
 */
module Auth {
  import opened Wrappers
  import opened Errors

  /** The decoded token payload; the core reads the user's id and role. */
  datatype Payload = Payload(id: Option<int>, role: Option<string>)

  const Scheme: string := "Bearer "

  /** `authorization || ""`, then the text after the "Bearer " prefix; an absent prefix
      or an empty token is NO_TOKEN. */
  function ExtractToken(authorization: Option<string>): (r: Result<string, Error>)
    ensures r.Ok? ==> authorization == Some(Scheme + r.value) && r.value != ""
    ensures r.Err? ==> r.error == NoToken
  {
    var header := authorization.GetOr("");
    if |header| >= |Scheme| && header[..|Scheme|] == Scheme && header[|Scheme|..] != "" then
      assert header == header[..|Scheme|] + header[|Scheme|..];
      Ok(header[|Scheme|..])
    else
      Err(NoToken)
  }

  /** Any non-empty token behind the prefix is extracted as it is. */
  lemma TokenRoundTrip(token: string)
    requires token != ""
    ensures ExtractToken(Some(Scheme + token)) == Ok(token)
  {
  }

  /** A header of exactly "Bearer " gives the empty token, which is rejected before verification;
      an absent header behaves as the empty one. */
  lemma EmptyTokensRejected()
    ensures ExtractToken(Some(Scheme)) == Err(NoToken)
    ensures ExtractToken(None) == ExtractToken(Some("")) == Err(NoToken)
  {
  }

  /** The request as `authRequired` sees it. */
  class Request {
    var authorization: Option<string>
    var user: Option<Payload>

    constructor (authorization: Option<string>)
      ensures this.authorization == authorization && user.None?
    {
      this.authorization := authorization;
      user := None;
    }
  }

  /** authRequired: on a verified token `req.user` becomes the payload and the request
      proceeds; otherwise NO_TOKEN or BAD_TOKEN, and `req.user` is left as it was. */
  method AuthRequired(req: Request, verify: string -> Option<Payload>) returns (next: Outcome<Error>)
    modifies req`user
    ensures var token := ExtractToken(req.authorization);
      if token.Err? then next == Fail(NoToken) && req.user == old(req.user)
      else if verify(token.value).None? then next == Fail(BadToken) && req.user == old(req.user)
      else next == Pass && req.user == verify(token.value)
  {
    var token := ExtractToken(req.authorization);
    if token.Err? {
      return Fail(NoToken);
    }
    var decoded := verify(token.value);
    if decoded.None? {
      return Fail(BadToken);
    }
    req.user := decoded;
    next := Pass;
  }

  /** `req.user?.role` is truthy. */
  predicate HasRole(user: Option<Payload>) {
    user.Some? && user.value.role.Some? && user.value.role.value != ""
  }

  /** requireRole(...roles): 401 without a role, 403 FORBIDDEN for a role not listed, pass otherwise. */
  function RequireRole(roles: seq<string>, user: Option<Payload>): (r: Outcome<Error>)
    ensures r.Pass? <==> HasRole(user) && user.value.role.value in roles
    ensures r == Fail(NoRole) <==> !HasRole(user)
    ensures r.Fail? ==> r.error in {NoRole, Forbidden}
  {
    if !HasRole(user) then Fail(NoRole)
    else if user.value.role.value !in roles then Fail(Forbidden)
    else Pass
  }

  /** Allowing more roles never turns a pass into a failure. */
  lemma RequireRoleMonotone(roles: seq<string>, more: seq<string>, user: Option<Payload>)
    requires forall x :: x in roles ==> x in more
    requires RequireRole(roles, user).Pass?
    ensures RequireRole(more, user).Pass?
  {
  }
}
