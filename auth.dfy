/**
 * The JWT middleware: account creation (`POST /user`) needs no token; any
 * other request needs an `Authorization` header holding a token the verifier
 * accepts, and then carries the token's `user` claim. The verifier (the
 * JWT library with the server's secret) is a parameter.
 */
module Auth {
  import opened Common

  /** Paths exempt from authentication, together with the POST method. */
  const ExcludedPaths := ["/user"]

  const TokenMissing := "Authentication error: Token missing"
  const InvalidToken := "Authentication error: Invalid token"

  /** The payload of a verified token; `user` is absent when the token carries no such claim. */
  datatype Decoded = Decoded(user: Option<Json>)

  datatype AuthDecision =
    | Exempt                          // `next()` without looking at the header
    | Unauthorized(message: string)   // 401 `{ message }`
    | Authenticated(user: Option<Json>) // `req.user = decoded.user; next()`

  /** A header value JavaScript reads as false: absent or empty. */
  predicate Falsy(header: Option<string>) {
    header == None || header == Some("")
  }

  /**
   * `authenticateJWT`'s decision: exempt exactly for a POST to an excluded
   * path; otherwise 401 "Token missing" when the header is absent or empty,
   * 401 "Invalid token" when the verifier refuses the token, and otherwise
   * acceptance carrying the token's `user` claim.
   */
  function Decide(path: string, verb: string, authorization: Option<string>, verify: string -> Option<Decoded>): (d: AuthDecision)
    ensures d.Exempt? <==> path in ExcludedPaths && verb == "POST"
    ensures d == Unauthorized(TokenMissing) <==> !d.Exempt? && Falsy(authorization)
    ensures d == Unauthorized(InvalidToken) <==>
              !d.Exempt? && !Falsy(authorization) && verify(authorization.value).None?
    ensures d.Authenticated? <==>
              !d.Exempt? && !Falsy(authorization) && verify(authorization.value).Some?
    ensures d.Authenticated? ==> d.user == verify(authorization.value).value.user
  {
    if path in ExcludedPaths && verb == "POST" then Exempt
    else if Falsy(authorization) then Unauthorized(TokenMissing)
    else match verify(authorization.value)
      case None => Unauthorized(InvalidToken)
      case Some(decoded) => Authenticated(decoded.user)
  }

  /** The parts of an Express request the middleware reads, and the `user` field it sets. */
  class Request {
    const path: string
    const verb: string
    const authorization: Option<string>
    var user: Option<Json>

    constructor (path: string, verb: string, authorization: Option<string>)
      ensures this.path == path && this.verb == verb && this.authorization == authorization
      ensures user == None
    {
      this.path := path;
      this.verb := verb;
      this.authorization := authorization;
      user := None;
    }
  }

  /**
   * `authenticateJWT`: either calls `next` or answers 401, never both; on
   * acceptance it first sets `req.user` to the token's `user` claim, and in
   * every other case leaves `req.user` alone.
   */
  method AuthenticateJWT(req: Request, verify: string -> Option<Decoded>) returns (nextCalled: bool, response: Option<Reply<()>>)
    modifies req
    ensures nextCalled <==> response.None?
    ensures var d := Decide(req.path, req.verb, req.authorization, verify);
      && (d.Exempt? ==> nextCalled && req.user == old(req.user))
      && (d.Unauthorized? ==> response == Some(Reply(401, Message(d.message))) && req.user == old(req.user))
      && (d.Authenticated? ==> nextCalled && req.user == d.user)
  {
    if req.path in ExcludedPaths && req.verb == "POST" {
      return true, None;
    }
    var token := req.authorization;
    if token == None || token == Some("") {
      return false, Some(Reply(401, Message(TokenMissing)));
    }
    var decoded := verify(token.value);
    if decoded.None? {
      return false, Some(Reply(401, Message(InvalidToken)));
    }
    req.user := decoded.value.user;
    nextCalled, response := true, None;
  }
}
