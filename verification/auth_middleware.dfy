/**
 * middleware/auth.middleware.js: the authorization gate. The token is the
 * second space-separated field of the Authorization header (the scheme is
 * not looked at); it either verifies as an access token, and the request
 * goes on with `req.user` set, or the request ends with 401.
 */
module AuthMiddleware {
  import opened Wrappers
  import opened Http
  import opened Text
  import opened Jwt
  import opened TokenService

  /** `req.headers.authorization?.split(" ")[1]`, where `!token` treats undefined and "" alike. */
  function ExtractToken(authorization: Option<string>): (token: Option<string>)
    ensures token.Some? ==> token.value != "" && ' ' !in token.value
  {
    match authorization
    case None => None
    case Some(header) =>
      var fields := Split(header, ' ');
      if |fields| >= 2 && fields[1] != "" then Some(fields[1]) else None
  }

  /** Either `next()` with the decoded payload as `req.user`, or a response that ends the request. */
  datatype Decision = Next(user: Payload) | Deny(response: Response)

  /** The gate's decision for a header at a given time. */
  function Authenticate(authorization: Option<string>, nowMs: nat): (d: Decision)
    ensures d.Deny? ==> d.response.status == 401
    ensures d.Next? <==> ExtractToken(authorization).Some? && VerifyAccessToken(ExtractToken(authorization).value, nowMs).Success?
    ensures d.Next? ==> VerifyAccessToken(ExtractToken(authorization).value, nowMs) == Success(d.user)
  {
    match ExtractToken(authorization)
    case None => Deny(Response(401, MessageBody("Unauthorized")))
    case Some(token) =>
      match VerifyAccessToken(token, nowMs)
      case Success(decoded) => Next(decoded)
      case Failure(_) => Deny(Response(401, MessageBody("Invalid token")))
  }

  /** The parts of an Express request and response the gate reads or changes. */
  class Request {
    const authorization: Option<string>
    var user: Option<Payload>
    var nextCalls: nat
    var response: Option<Response>

    constructor (authorization: Option<string>)
      ensures this.authorization == authorization
      ensures user == None && nextCalls == 0 && response == None
    {
      this.authorization := authorization;
      user, nextCalls, response := None, 0, None;
    }
  }

  /**
   * `authenticate(req, res, next)`: on success set `req.user` and call
   * `next` once, sending nothing; otherwise send the 401 and do not call
   * `next`.
   */
  method AuthenticateRequest(req: Request, nowMs: nat)
    modifies req
    ensures match Authenticate(req.authorization, nowMs)
      case Next(decoded) =>
        req.user == Some(decoded) && req.nextCalls == old(req.nextCalls) + 1 && req.response == old(req.response)
      case Deny(r) =>
        req.response == Some(r) && req.user == old(req.user) && req.nextCalls == old(req.nextCalls)
  {
    var token := ExtractToken(req.authorization);
    if token.None? {
      req.response := Some(Response(401, MessageBody("Unauthorized")));
      return;
    }
    var decoded := VerifyAccessToken(token.value, nowMs);
    if decoded.Success? {
      req.user := Some(decoded.value);
      req.nextCalls := req.nextCalls + 1;
    } else {
      req.response := Some(Response(401, MessageBody("Invalid token")));
    }
  }

  /** Whatever the first field says, only what follows the first space is the token. */
  lemma SchemeIsNotChecked(scheme: string, other: string, rest: string)
    requires ' ' !in scheme && ' ' !in other
    ensures ExtractToken(Some(scheme + " " + rest)) == ExtractToken(Some(other + " " + rest))
  {
    SplitLeading(scheme, rest, ' ');
    SplitLeading(other, rest, ' ');
  }

  /** No header, or a header with no space in it, is refused with "Unauthorized". */
  lemma MissingTokenIsUnauthorized(authorization: Option<string>, nowMs: nat)
    requires authorization.Some? ==> ' ' !in authorization.value
    ensures Authenticate(authorization, nowMs) == Deny(Response(401, MessageBody("Unauthorized")))
  {
    if authorization.Some? {
      SplitWithoutSeparator(authorization.value, ' ');
    }
  }

  lemma BearerField(scheme: string, token: string)
    requires ' ' !in scheme && token != [] && ' ' !in token
    ensures ExtractToken(Some(scheme + " " + token)) == Some(token)
  {
    SplitLeading(scheme, token, ' ');
    SplitWithoutSeparator(token, ' ');
  }

  /**
   * An access token issued by `generateTokens`, sent after any one-word
   * scheme, lets the request through with its user for 15 minutes and is
   * refused with "Invalid token" afterwards; the refresh token of the same
   * pair is always refused.
   */
  lemma IssuedTokensAtTheGate(scheme: string, userId: nat, issuedMs: nat, nowMs: nat)
    requires ' ' !in scheme
    ensures var pair := GenerateTokens(userId, issuedMs);
      var issued := Seconds(issuedMs);
      && Authenticate(Some(scheme + " " + pair.accessToken), nowMs) ==
           (if Seconds(nowMs) < issued + ACCESS_LIFETIME
            then Next(Payload(userId, issued, issued + ACCESS_LIFETIME))
            else Deny(Response(401, MessageBody("Invalid token"))))
      && Authenticate(Some(scheme + " " + pair.refreshToken), nowMs) == Deny(Response(401, MessageBody("Invalid token")))
  {
    var issued := Seconds(issuedMs);
    EncodeHasNoSpace(Token(Payload(userId, issued, issued + ACCESS_LIFETIME), ACCESS_SECRET));
    EncodeHasNoSpace(Token(Payload(userId, issued, issued + REFRESH_LIFETIME), REFRESH_SECRET));
    var pair := GenerateTokens(userId, issuedMs);
    BearerField(scheme, pair.accessToken);
    BearerField(scheme, pair.refreshToken);
    GeneratedPairVerifies(userId, issuedMs, nowMs);
  }
}
