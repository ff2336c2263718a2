/** backend/middleware/authMiddleware.js: `authenticateUser`. `jwt.verify(token, secret)` at
    time `now` is the parameter `verify`, `None` when it throws (bad signature, expired or
    malformed token). The empty token that a bare "Bearer " header leaves is handed to `verify`
    like any other, so what it answers for "" decides that request. */
module AuthMiddleware {
  import opened Wrappers
  import opened JsText
  import opened Store
  import opened Identity

  const BearerPrefix: string := "Bearer "

  /** What the middleware decides: answer the request itself, or hand the decoded payload to
      the next handler. */
  datatype AuthOutcome = Rejected(code: int, message: string) | Authenticated(user: Claims)

  /** `authHeader.split(" ")[1]`: the text after "Bearer " up to the next space. */
  function BearerToken(header: string): (t: string)
    requires StartsWith(header, BearerPrefix)
    ensures var rest := header[|BearerPrefix|..];
      ' ' !in t && |t| <= |rest| && rest[..|t|] == t && (|t| == |rest| || rest[|t|] == ' ')
  {
    var rest := header[|BearerPrefix|..];
    assert header == "Bearer" + [' '] + rest;
    SplitAtFirstSeparator("Bearer", rest, ' ');
    SplitFirstPiece(rest, ' ');
    Split(header, ' ')[1]
  }

  /** `authenticateUser`, in the source's order: the header check (401) comes before the
      secret check (500), which comes before verification (400). The scheme name is matched
      case-sensitively. */
  function Authenticate(header: Option<string>, secret: Option<string>,
                        verify: (string, string) -> Option<Claims>): (r: AuthOutcome)
    ensures Falsy(header) || !StartsWith(header.value, BearerPrefix) ==>
      r == Rejected(401, "Access Denied. No token provided.")
    ensures !Falsy(header) && StartsWith(header.value, BearerPrefix) && Falsy(secret) ==>
      r == Rejected(500, "Server configuration error: Missing JWT_SECRET")
    ensures r.Authenticated? <==>
      && !Falsy(header) && StartsWith(header.value, BearerPrefix) && !Falsy(secret)
      && verify(BearerToken(header.value), secret.value).Some?
    ensures r.Authenticated? ==> Some(r.user) == verify(BearerToken(header.value), secret.value)
    ensures r.Rejected? ==> r.code in {400, 401, 500}
  {
    if Falsy(header) || !StartsWith(header.value, BearerPrefix) then Rejected(401, "Access Denied. No token provided.")
    else if Falsy(secret) then Rejected(500, "Server configuration error: Missing JWT_SECRET")
    else match verify(BearerToken(header.value), secret.value)
      case None => Rejected(400, "Invalid Token")
      case Some(c) => Authenticated(c)
  }

  /** The request as the middleware sees it: `req.user` and how often `next()` was called. */
  class Request {
    var user: Option<Claims>
    var nextCalls: nat

    constructor ()
      ensures user.None? && nextCalls == 0
    {
      user, nextCalls := None, 0;
    }
  }

  /** On success `req.user` is the payload and `next()` runs once, with no response from the
      middleware (`NoReply`); otherwise the request is answered and left untouched. */
  method AuthenticateUser(req: Request, header: Option<string>, secret: Option<string>,
                          verify: (string, string) -> Option<Claims>) returns (res: Response)
    modifies req
    ensures match Authenticate(header, secret, verify)
      case Rejected(code, message) =>
        res == Reply(code, message) && req.user == old(req.user) && req.nextCalls == old(req.nextCalls)
      case Authenticated(c) =>
        res == NoReply && req.user == Some(c) && req.nextCalls == old(req.nextCalls) + 1
  {
    if Falsy(header) || !StartsWith(header.value, BearerPrefix) {
      return Reply(401, "Access Denied. No token provided.");
    }
    var token := BearerToken(header.value);
    if Falsy(secret) {
      return Reply(500, "Server configuration error: Missing JWT_SECRET");
    }
    var decoded := verify(token, secret.value);
    if decoded.None? {
      return Reply(400, "Invalid Token");
    }
    req.user := decoded;
    req.nextCalls := req.nextCalls + 1;
    res := NoReply;
  }

  /** A token without spaces sent as "Bearer <token>" is exactly what gets verified. */
  lemma BearerTokenRoundTrip(token: string)
    requires ' ' !in token
    ensures StartsWith(BearerPrefix + token, BearerPrefix)
    ensures BearerToken(BearerPrefix + token) == token
  {
    assert (BearerPrefix + token)[|BearerPrefix|..] == token;
  }

  /** The scheme name is case-sensitive: "bearer", unlike RFC 7235's scheme names, is refused. */
  lemma LowerCaseSchemeRefused(token: string, secret: Option<string>, verify: (string, string) -> Option<Claims>)
    ensures Authenticate(Some("bearer " + token), secret, verify) == Rejected(401, "Access Denied. No token provided.")
  {
    assert ("bearer " + token)[0] == 'b';
  }

  /** A well-formed request after the login that issued its token reaches the handler with the
      token's payload. */
  lemma SignedTokenAuthenticates(token: string, secret: string, c: Claims, verify: (string, string) -> Option<Claims>)
    requires ' ' !in token && secret != ""
    requires verify(token, secret) == Some(c)
    ensures Authenticate(Some(BearerPrefix + token), Some(secret), verify) == Authenticated(c)
  {
    BearerTokenRoundTrip(token);
  }
}
