/**
 * controllers/auth.controller.js: the four session handlers as transitions
 * over the user table, the OTP store and the activity log. Collaborator
 * outcomes (Redis, mail, activity write) and the bcrypt salt are parameters;
 * `nowMs` is the request's clock.
 */
module AuthController {
  import opened Wrappers
  import opened Http
  import opened Store
  import opened ActivityService
  import opened OtpService
  import opened TokenService
  import Jwt

  /**
   * Stands for the P2025 error Prisma throws when `update` finds no row with
   * the id; this text is the error's cause, the thrown message is longer.
   */
  const RECORD_NOT_FOUND := "Record to update not found."

  /** `res.json(tokens)`: an object with the two tokens under their names and nothing else. */
  function TokensBody(pair: TokenPair): (body: Json)
    ensures body.JObj? && body.fields.Keys == {"accessToken", "refreshToken"}
    ensures body.fields["accessToken"] == JStr(pair.accessToken) && body.fields["refreshToken"] == JStr(pair.refreshToken)
  {
    JObj(map["accessToken" := JStr(pair.accessToken), "refreshToken" := JStr(pair.refreshToken)])
  }

  /** The user table after logout: the user's refresh-token digest cleared. */
  function Revoke(users: map<nat, User>, userId: nat): (r: map<nat, User>)
    requires userId in users
    ensures r.Keys == users.Keys
    ensures r[userId].refreshToken.None?
    ensures r[userId].id == users[userId].id && r[userId].email == users[userId].email
    ensures r[userId].isVerified == users[userId].isVerified
    ensures forall other | other in users && other != userId :: r[other] == users[other]
  {
    users[userId := users[userId].(refreshToken := None)]
  }

  /**
   * `sendOTP`: find or create the user (unverified) first, then issue the
   * code. A failed issue escapes as "Failed to send OTP" with the user
   * already in place and nothing logged; a successful one logs `otp_sent`
   * with the user's id.
   */
  method SendOtp(db: Db, redis: Redis, email: string, nowMs: nat,
                 setexSucceeds: bool, mailSucceeds: bool, logSucceeds: bool)
    returns (out: Outcome)
    requires db.Valid()
    modifies db`users, db`nextUserId, db`activities, redis
    ensures db.Valid() && HasEmail(db.users, email)
    ensures HasEmail(old(db.users), email) ==> db.users == old(db.users)
    ensures !HasEmail(old(db.users), email) ==>
      var id := IdOf(db.users, email);
      id !in old(db.users) && db.users == old(db.users)[id := User(id, email, false, None)]
    ensures out.Replied? <==> setexSucceeds && mailSucceeds
    ensures out.Threw? ==> out.message == SEND_FAILED && db.activities == old(db.activities)
    ensures out.Replied? ==>
      && out.response == Response(200, MessageBody("OTP sent successfully"))
      && db.activities == old(db.activities) +
           (if logSucceeds then [Activity(OtpSent, "OTP sent to " + email, Some(IdOf(db.users, email)))] else [])
    ensures !setexSucceeds ==> redis.entries == old(redis.entries)
    ensures setexSucceeds ==>
      exists code :: IsOtpCode(code) && redis.entries == Issue(old(redis.entries), email, code, nowMs)
  {
    var found := db.FindUserByEmail(email);
    var userId: nat;
    if found.None? {
      userId := db.CreateUser(email, false);
    } else {
      userId := found.value;
    }
    assert userId in db.users && db.users[userId].email == email;
    var sent := GenerateOtp(redis, email, nowMs, setexSucceeds, mailSucceeds);
    if sent.Failure? {
      return Threw(sent.error);
    }
    LogActivity(db, OtpSent, "OTP sent to " + email, Some(userId), logSucceeds);
    return Replied(Response(200, MessageBody("OTP sent successfully")));
  }

  /**
   * `verifyOTP`: a rejected code gives 400 "Invalid OTP", logs `otp_failed`
   * without a user id, and leaves the users alone. An accepted code leaves
   * exactly one verified user with that email (created or updated), stores
   * the digest of the new refresh token on it, logs `login_success` and
   * returns the pair.
   */
  method VerifyOtp(db: Db, redis: Redis, email: string, otp: string, nowMs: nat, salt: nat,
                   getSucceeds: bool, delSucceeds: bool, logSucceeds: bool)
    returns (out: Outcome)
    requires db.Valid()
    modifies db`users, db`nextUserId, db`activities, redis
    ensures db.Valid()
    ensures var accepted := getSucceeds && delSucceeds && Accepts(old(redis.entries), email, otp, nowMs);
      && redis.entries == (if accepted then Consume(old(redis.entries), email) else old(redis.entries))
      && (!accepted ==>
            && out == Replied(Response(400, MessageBody("Invalid OTP")))
            && db.users == old(db.users)
            && db.activities == old(db.activities) +
                 (if logSucceeds then [Activity(OtpFailed, "Invalid OTP for " + email, None)] else []))
      && (accepted ==>
            && HasEmail(db.users, email)
            && var id := IdOf(db.users, email);
               var pair := GenerateTokens(id, nowMs);
               && (id in old(db.users) <==> HasEmail(old(db.users), email))
               && db.users == old(db.users)[id := User(id, email, true, Some(HashRefreshToken(pair.refreshToken, salt)))]
               && out == Replied(Response(200, TokensBody(pair)))
               && db.activities == old(db.activities) +
                    (if logSucceeds then [Activity(LoginSuccess, "User " + email + " logged in successfully", Some(id))] else []))
  {
    var isValid := VerifyOtpFromRedis(redis, email, otp, nowMs, getSucceeds, delSucceeds);
    if !isValid {
      LogActivity(db, OtpFailed, "Invalid OTP for " + email, None, logSucceeds);
      return Replied(Response(400, MessageBody("Invalid OTP")));
    }
    var userId, tokens := SignIn(db, email, nowMs, salt);
    LogActivity(db, LoginSuccess, "User " + email + " logged in successfully", Some(userId), logSucceeds);
    return Replied(Response(200, TokensBody(tokens)));
  }

  /**
   * The accepted branch of `verifyOTP`: the user with that email is created
   * verified or marked verified, and the digest of a new refresh token is
   * stored on it. Nothing else changes.
   */
  method SignIn(db: Db, email: string, nowMs: nat, salt: nat) returns (userId: nat, tokens: TokenPair)
    requires db.Valid()
    modifies db`users, db`nextUserId
    ensures db.Valid() && HasEmail(db.users, email) && userId == IdOf(db.users, email)
    ensures userId in old(db.users) <==> HasEmail(old(db.users), email)
    ensures tokens == GenerateTokens(userId, nowMs)
    ensures db.users == old(db.users)[userId := User(userId, email, true, Some(HashRefreshToken(tokens.refreshToken, salt)))]
  {
    var found := db.FindUserByEmail(email);
    if found.None? {
      userId := db.CreateUser(email, true);
    } else {
      userId := found.value;
      db.SetVerified(userId);
    }
    tokens := GenerateTokens(userId, nowMs);
    var hashedRefresh := HashRefreshToken(tokens.refreshToken, salt);
    db.SetRefreshToken(userId, Some(hashedRefresh));
    assert db.users[userId].email == email;
  }

  /**
   * `refreshToken`: rotation as `Rotate` describes it; any failure becomes
   * 401 "Invalid refresh token", a success logs `token_refresh` (with no
   * user id) and returns the new pair.
   */
  method RefreshToken(db: Db, refreshToken: string, nowMs: nat, salt: nat, logSucceeds: bool)
    returns (out: Outcome)
    requires db.Valid()
    modifies db`users, db`activities
    ensures db.Valid()
    ensures var (r, after) := Rotate(old(db.users), refreshToken, nowMs, salt);
      && db.users == after
      && out == Replied(if r.Success? then Response(200, TokensBody(r.value))
                        else Response(401, MessageBody("Invalid refresh token")))
      && db.activities == old(db.activities) +
           (if r.Success? && logSucceeds then [Activity(TokenRefresh, "Access token refreshed", None)] else [])
  {
    var newTokens := VerifyAndRotateRefreshToken(db, refreshToken, nowMs, salt);
    if newTokens.Failure? {
      return Replied(Response(401, MessageBody("Invalid refresh token")));
    }
    LogActivity(db, TokenRefresh, "Access token refreshed", None, logSucceeds);
    return Replied(Response(200, TokensBody(newTokens.value)));
  }

  /**
   * `logout`, behind the authorization gate: clear the user's digest and log
   * `logout`. An id with no row makes Prisma's update throw.
   */
  method Logout(db: Db, user: Jwt.Payload, logSucceeds: bool) returns (out: Outcome)
    requires db.Valid()
    modifies db`users, db`activities
    ensures db.Valid()
    ensures user.userId !in old(db.users) ==>
      out == Threw(RECORD_NOT_FOUND) && db.users == old(db.users) && db.activities == old(db.activities)
    ensures user.userId in old(db.users) ==>
      && db.users == Revoke(old(db.users), user.userId)
      && out == Replied(Response(200, MessageBody("Logged out successfully")))
      && db.activities == old(db.activities) +
           (if logSucceeds then [Activity(ActivityType.Logout, "User logged out", Some(user.userId))] else [])
  {
    var userId := user.userId;
    if userId !in db.users {
      return Threw(RECORD_NOT_FOUND);
    }
    db.SetRefreshToken(userId, None);
    LogActivity(db, ActivityType.Logout, "User logged out", Some(userId), logSucceeds);
    return Replied(Response(200, MessageBody("Logged out successfully")));
  }

  /** After logout no refresh token of that user rotates, until the next login. */
  lemma LogoutEndsSession(users: map<nat, User>, userId: nat, token: string, nowMs: nat, salt: nat)
    requires userId in users
    requires Jwt.Verify(token, REFRESH_SECRET, nowMs).Success?
    requires Jwt.Verify(token, REFRESH_SECRET, nowMs).value.userId == userId
    ensures Rotate(Revoke(users, userId), token, nowMs, salt).0 == Failure(InvalidRefreshToken)
  {
    NoSessionNoRotation(Revoke(users, userId), token, nowMs, salt);
  }
}
