/**
 * Whole sessions run through the handlers in sequence, with every
 * collaborator succeeding: what a client observes across several requests.
 */
module Scenarios {
  import opened Wrappers
  import opened Http
  import opened Store
  import opened OtpService
  import opened TokenService
  import opened AuthController
  import AuthMiddleware
  import Jwt

  /** A code that logged in once is refused the second time it is presented, whenever that is. */
  method OtpIsSingleUse(db: Db, redis: Redis, email: string, otp: string, nowMs: nat, laterMs: nat, salt: nat, laterSalt: nat)
    returns (first: Outcome, second: Outcome)
    requires db.Valid()
    modifies db`users, db`nextUserId, db`activities, redis
    ensures db.Valid()
    ensures first.Replied? && first.response.status == 200 ==>
      second == Replied(Response(400, MessageBody("Invalid OTP")))
  {
    first := VerifyOtp(db, redis, email, otp, nowMs, salt, true, true, true);
    var afterFirst := redis.entries;
    second := VerifyOtp(db, redis, email, otp, laterMs, laterSalt, true, true, true);
    if first.Replied? && first.response.status == 200 {
      ConsumedCodeRejected(old(redis.entries), email, otp, laterMs);
      assert afterFirst == Consume(old(redis.entries), email);
    }
  }

  /**
   * Log in, then rotate the refresh token the login handed out within its
   * 7 days: the rotation succeeds and returns the pair minted at its own time.
   */
  method LoginThenRefresh(db: Db, redis: Redis, email: string, otp: string,
                          loginMs: nat, refreshMs: nat, loginSalt: nat, refreshSalt: nat)
    returns (login: Outcome, refresh: Outcome, ghost id: nat)
    requires db.Valid()
    requires Jwt.Seconds(refreshMs) < Jwt.Seconds(loginMs) + REFRESH_LIFETIME
    modifies db`users, db`nextUserId, db`activities, redis
    ensures db.Valid()
    ensures login.Replied? && login.response.status == 200 ==>
      && id in db.users
      && refresh == Replied(Response(200, TokensBody(GenerateTokens(id, refreshMs))))
  {
    login := VerifyOtp(db, redis, email, otp, loginMs, loginSalt, true, true, true);
    if !(login.Replied? && login.response.status == 200) {
      refresh := Replied(Response(401, MessageBody("Invalid refresh token")));
      id := 0;
      return;
    }
    id := IdOf(db.users, email);
    ghost var first := GenerateTokens(id, loginMs);
    assert login.response.body == TokensBody(first);
    var refreshToken := login.response.body.fields["refreshToken"].s;
    IssuedRefreshTokenRotates(db.users, id, loginMs, loginSalt, refreshMs, refreshSalt);
    refresh := RefreshToken(db, refreshToken, refreshMs, refreshSalt, true);
  }

  /**
   * With a pair issued to a user who has a row: the access token passes the
   * gate within its 15 minutes, logout succeeds, and from then on the
   * pair's refresh token is refused with 401.
   */
  method LogoutThenReplay(db: Db, pair: TokenPair, logoutMs: nat, replayMs: nat, replaySalt: nat,
                          ghost id: nat, ghost issuedMs: nat)
    returns (gate: AuthMiddleware.Decision, logout: Outcome, replay: Outcome)
    requires db.Valid() && id in db.users
    requires pair == GenerateTokens(id, issuedMs)
    requires Jwt.Seconds(logoutMs) < Jwt.Seconds(issuedMs) + ACCESS_LIFETIME
    requires Jwt.Seconds(replayMs) < Jwt.Seconds(issuedMs) + REFRESH_LIFETIME
    modifies db`users, db`activities
    ensures db.Valid()
    ensures gate.Next? && gate.user.userId == id
    ensures logout == Replied(Response(200, MessageBody("Logged out successfully")))
    ensures replay == Replied(Response(401, MessageBody("Invalid refresh token")))
  {
    AuthMiddleware.IssuedTokensAtTheGate("Bearer", id, issuedMs, logoutMs);
    gate := AuthMiddleware.Authenticate(Some("Bearer" + " " + pair.accessToken), logoutMs);
    ghost var beforeLogout := db.users;
    logout := AuthController.Logout(db, gate.user, true);
    Jwt.SignThenVerify(id, REFRESH_SECRET, REFRESH_LIFETIME, issuedMs, REFRESH_SECRET, replayMs);
    LogoutEndsSession(beforeLogout, id, pair.refreshToken, replayMs, replaySalt);
    replay := RefreshToken(db, pair.refreshToken, replayMs, replaySalt, true);
  }

  /**
   * A whole session: log in, rotate, pass the gate with the new access
   * token, log out; the refresh token the rotation handed out is then refused.
   */
  method LoginRefreshLogout(db: Db, redis: Redis, email: string, otp: string,
                            loginMs: nat, refreshMs: nat, logoutMs: nat, replayMs: nat,
                            loginSalt: nat, refreshSalt: nat, replaySalt: nat)
    returns (login: Outcome, refresh: Outcome, gate: AuthMiddleware.Decision, logout: Outcome, replay: Outcome)
    requires db.Valid()
    requires Jwt.Seconds(refreshMs) < Jwt.Seconds(loginMs) + REFRESH_LIFETIME
    requires Jwt.Seconds(logoutMs) < Jwt.Seconds(refreshMs) + ACCESS_LIFETIME
    requires Jwt.Seconds(replayMs) < Jwt.Seconds(refreshMs) + REFRESH_LIFETIME
    modifies db`users, db`nextUserId, db`activities, redis
    ensures db.Valid()
    ensures login.Replied? && login.response.status == 200 ==>
      && refresh.Replied? && refresh.response.status == 200
      && gate.Next?
      && logout == Replied(Response(200, MessageBody("Logged out successfully")))
      && replay == Replied(Response(401, MessageBody("Invalid refresh token")))
  {
    ghost var id;
    login, refresh, id := LoginThenRefresh(db, redis, email, otp, loginMs, refreshMs, loginSalt, refreshSalt);
    if !(login.Replied? && login.response.status == 200) {
      gate := AuthMiddleware.Authenticate(None, logoutMs);
      logout, replay := refresh, refresh;
      return;
    }
    var body := refresh.response.body;
    var pair := TokenPair(body.fields["accessToken"].s, body.fields["refreshToken"].s);
    assert pair == GenerateTokens(id, refreshMs);
    gate, logout, replay := LogoutThenReplay(db, pair, logoutMs, replayMs, replaySalt, id, refreshMs);
  }
}
