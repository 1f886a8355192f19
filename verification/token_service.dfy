/**
 * services/token.service.js: access/refresh pairs signed with two distinct
 * secrets, access-token verification, and refresh-token rotation against the
 * bcrypt digest stored on the user. Compared in full, a token already rotated
 * away is refused; compared as bcrypt compares, only its first 72 bytes count.
 */
module TokenService {
  import opened Wrappers
  import opened Jwt
  import Bcrypt
  import opened Store
  import JwtWire

  /** process.env.JWT_SECRET and process.env.JWT_REFRESH_SECRET, assumed distinct. */
  const ACCESS_SECRET: Key := 0
  const REFRESH_SECRET: Key := 1
  /** '15m' and '7d', in seconds. */
  const ACCESS_LIFETIME: nat := 15 * 60
  const REFRESH_LIFETIME: nat := 7 * 24 * 60 * 60
  const BCRYPT_COST: nat := 10
  const INVALID_ACCESS := "Invalid access token"

  datatype TokenPair = TokenPair(accessToken: string, refreshToken: string)

  /** `generateTokens(userId)`; the two tokens always differ, being signed with different secrets. */
  function GenerateTokens(userId: nat, nowMs: nat): (pair: TokenPair)
    ensures pair.accessToken != pair.refreshToken
  {
    var issued := Seconds(nowMs);
    EncodeInjective(Token(Payload(userId, issued, issued + ACCESS_LIFETIME), ACCESS_SECRET),
                    Token(Payload(userId, issued, issued + REFRESH_LIFETIME), REFRESH_SECRET));
    TokenPair(Sign(userId, ACCESS_SECRET, ACCESS_LIFETIME, nowMs), Sign(userId, REFRESH_SECRET, REFRESH_LIFETIME, nowMs))
  }

  /**
   * `hashRefreshToken(token)`: bcrypt with cost 10 and a random salt. Whatever
   * the salt, the digest accepts the hashed token and no other string.
   */
  function HashRefreshToken(token: string, salt: nat): (d: Bcrypt.Digest)
    ensures d.cost == BCRYPT_COST
    ensures forall other :: Bcrypt.Compare(other, d) <==> other == token
  {
    Bcrypt.Hash(token, BCRYPT_COST, salt)
  }

  /** `verifyAccessToken(token)`: the payload, or the single error "Invalid access token". */
  function VerifyAccessToken(token: string, nowMs: nat): (r: Result<Payload, string>)
    ensures r.Success? ==> token == Encode(Token(r.value, ACCESS_SECRET)) && Seconds(nowMs) < r.value.exp
    ensures r.Failure? ==> r.error == INVALID_ACCESS
  {
    match Verify(token, ACCESS_SECRET, nowMs)
    case Success(decoded) => Success(decoded)
    case Failure(_) => Failure(INVALID_ACCESS)
  }

  /**
   * An issued access token verifies as an access token, carrying its user,
   * for its 15 minutes; the refresh token of the same pair never does, and
   * the access token is refused by the refresh secret.
   */
  lemma GeneratedPairVerifies(userId: nat, issuedMs: nat, nowMs: nat)
    ensures var pair := GenerateTokens(userId, issuedMs);
      var issued := Seconds(issuedMs);
      && VerifyAccessToken(pair.accessToken, nowMs) ==
           (if Seconds(nowMs) < issued + ACCESS_LIFETIME
            then Success(Payload(userId, issued, issued + ACCESS_LIFETIME))
            else Failure(INVALID_ACCESS))
      && VerifyAccessToken(pair.refreshToken, nowMs) == Failure(INVALID_ACCESS)
      && Verify(pair.refreshToken, REFRESH_SECRET, nowMs) ==
           (if Seconds(nowMs) < issued + REFRESH_LIFETIME
            then Success(Payload(userId, issued, issued + REFRESH_LIFETIME))
            else Failure(Expired))
      && Verify(pair.accessToken, REFRESH_SECRET, nowMs) == Failure(InvalidSignature)
  {
    SignThenVerify(userId, ACCESS_SECRET, ACCESS_LIFETIME, issuedMs, ACCESS_SECRET, nowMs);
    SignThenVerify(userId, REFRESH_SECRET, REFRESH_LIFETIME, issuedMs, ACCESS_SECRET, nowMs);
    SignThenVerify(userId, REFRESH_SECRET, REFRESH_LIFETIME, issuedMs, REFRESH_SECRET, nowMs);
    SignThenVerify(userId, ACCESS_SECRET, ACCESS_LIFETIME, issuedMs, REFRESH_SECRET, nowMs);
  }

  /** Why a rotation failed: jsonwebtoken's own error, or "Invalid refresh token". */
  datatype RotateError = Rejected(reason: VerifyError) | InvalidRefreshToken

  /** How a presented refresh token is checked against the digest stored on its user. */
  type Comparison = (string, Bcrypt.Digest) -> bool

  /**
   * `verifyAndRotateRefreshToken(token)` as a transition of the user table,
   * for a given comparison of token and digest: the outcome and the table
   * afterwards. Every check comes before the one write, so a failure leaves
   * the table as it was.
   */
  function RotateWith(compare: Comparison, users: map<nat, User>, token: string, nowMs: nat, salt: nat)
    : (res: (Result<TokenPair, RotateError>, map<nat, User>))
    ensures res.0.Failure? ==> res.1 == users
    ensures res.0.Success? ==> Verify(token, REFRESH_SECRET, nowMs).Success?
  {
    match Verify(token, REFRESH_SECRET, nowMs)
    case Failure(e) => (Failure(Rejected(e)), users)
    case Success(decoded) =>
      if decoded.userId !in users || users[decoded.userId].refreshToken.None? then
        (Failure(InvalidRefreshToken), users)
      else if !compare(token, users[decoded.userId].refreshToken.value) then
        (Failure(InvalidRefreshToken), users)
      else
        var user := users[decoded.userId];
        var newTokens := GenerateTokens(decoded.userId, nowMs);
        (Success(newTokens),
         users[decoded.userId := user.(refreshToken := Some(HashRefreshToken(newTokens.refreshToken, salt)))])
  }

  /** Rotation with the token compared in full against the digest: the behaviour the rest of the model relies on. */
  function Rotate(users: map<nat, User>, token: string, nowMs: nat, salt: nat): (res: (Result<TokenPair, RotateError>, map<nat, User>))
    ensures res.0.Failure? ==> res.1 == users
  {
    RotateWith(Bcrypt.Compare, users, token, nowMs, salt)
  }

  /**
   * `bcrypt.compare(token, user.refreshToken)` on the strings actually sent:
   * both the presented token and the token the digest was made from are
   * read only up to bcrypt's 72-byte limit.
   */
  function CompareAsWritten(token: string, digest: Bcrypt.Digest): (same: bool)
    ensures same <==> Bcrypt.CompareTruncated(JwtWire.WireOf(token), Bcrypt.Hash(JwtWire.WireOf(digest.plaintext), digest.cost, digest.salt))
  {
    Bcrypt.Truncate(JwtWire.WireOf(token)) == Bcrypt.Truncate(JwtWire.WireOf(digest.plaintext))
  }

  /** Rotation as the code performs it, with bcrypt's truncating comparison. */
  function RotateAsWritten(users: map<nat, User>, token: string, nowMs: nat, salt: nat): (res: (Result<TokenPair, RotateError>, map<nat, User>))
    ensures res.0.Failure? ==> res.1 == users
  {
    RotateWith(CompareAsWritten, users, token, nowMs, salt)
  }

  method VerifyAndRotateRefreshToken(db: Db, token: string, nowMs: nat, salt: nat)
    returns (r: Result<TokenPair, RotateError>)
    requires db.Valid()
    modifies db`users
    ensures db.Valid()
    ensures (r, db.users) == Rotate(old(db.users), token, nowMs, salt)
  {
    var decoded := Verify(token, REFRESH_SECRET, nowMs);
    if decoded.Failure? {
      return Failure(Rejected(decoded.error));
    }
    var userId := decoded.value.userId;
    if userId !in db.users || db.users[userId].refreshToken.None? {
      return Failure(InvalidRefreshToken);
    }
    var user := db.users[userId];
    var isValid := Bcrypt.Compare(token, user.refreshToken.value);
    if !isValid {
      return Failure(InvalidRefreshToken);
    }
    var newTokens := GenerateTokens(user.id, nowMs);
    var hashedNewRefresh := HashRefreshToken(newTokens.refreshToken, salt);
    db.SetRefreshToken(user.id, Some(hashedNewRefresh));
    return Success(newTokens);
  }

  /** An access token, or anything else not signed with the refresh secret, cannot be rotated. */
  lemma AccessTokenCannotRotate(users: map<nat, User>, userId: nat, issuedMs: nat, nowMs: nat, salt: nat)
    ensures Rotate(users, GenerateTokens(userId, issuedMs).accessToken, nowMs, salt)
            == (Failure(Rejected(InvalidSignature)), users)
  {
    GeneratedPairVerifies(userId, issuedMs, nowMs);
  }

  /** A user without a stored digest (never logged in, or logged out) cannot rotate any token. */
  lemma NoSessionNoRotation(users: map<nat, User>, token: string, nowMs: nat, salt: nat)
    requires Verify(token, REFRESH_SECRET, nowMs).Success?
    requires var userId := Verify(token, REFRESH_SECRET, nowMs).value.userId;
             userId !in users || users[userId].refreshToken.None?
    ensures Rotate(users, token, nowMs, salt) == (Failure(InvalidRefreshToken), users)
  {
  }

  /**
   * A successful rotation stores the digest of the new refresh token on the
   * token's user, touches no other user, and returns a pair bound to that user.
   */
  lemma RotationRebinds(users: map<nat, User>, token: string, nowMs: nat, salt: nat)
    requires Rotate(users, token, nowMs, salt).0.Success?
    ensures var userId := Verify(token, REFRESH_SECRET, nowMs).value.userId;
      var (r, after) := Rotate(users, token, nowMs, salt);
      var issued := Seconds(nowMs);
      && userId in users && after.Keys == users.Keys
      && after[userId] == users[userId].(refreshToken := Some(HashRefreshToken(r.value.refreshToken, salt)))
      && (forall other | other in users && other != userId :: after[other] == users[other])
      && VerifyAccessToken(r.value.accessToken, nowMs) == Success(Payload(userId, issued, issued + ACCESS_LIFETIME))
      && Verify(r.value.refreshToken, REFRESH_SECRET, nowMs) == Success(Payload(userId, issued, issued + REFRESH_LIFETIME))
  {
    var userId := Verify(token, REFRESH_SECRET, nowMs).value.userId;
    GeneratedPairVerifies(userId, nowMs, nowMs);
  }

  /**
   * Reuse detection: once a token has been rotated, presenting it again can
   * only succeed if it is the very refresh token the rotation handed out.
   */
  lemma StaleTokenRejected(users: map<nat, User>, token: string, nowMs: nat, salt: nat, laterMs: nat, laterSalt: nat)
    requires Rotate(users, token, nowMs, salt).0.Success?
    ensures var (r, after) := Rotate(users, token, nowMs, salt);
      Rotate(after, token, laterMs, laterSalt).0.Success? ==> token == r.value.refreshToken
  {
    var (r, after) := Rotate(users, token, nowMs, salt);
    if Rotate(after, token, laterMs, laterSalt).0.Success? {
      var d1 := Verify(token, REFRESH_SECRET, nowMs).value;
      var d2 := Verify(token, REFRESH_SECRET, laterMs).value;
      EncodeInjective(Token(d1, REFRESH_SECRET), Token(d2, REFRESH_SECRET));
      assert d1.userId == d2.userId;
    }
  }

  /**
   * Signing is deterministic, so the rotated refresh token equals the
   * presented one exactly when the presented token was issued in the current
   * second with the standard 7-day lifetime; in every other case the
   * presented token is now stale.
   */
  lemma RotatedTokenIsNewUnlessSameSecond(users: map<nat, User>, token: string, nowMs: nat, salt: nat)
    requires Rotate(users, token, nowMs, salt).0.Success?
    ensures var decoded := Verify(token, REFRESH_SECRET, nowMs).value;
      Rotate(users, token, nowMs, salt).0.value.refreshToken == token
      <==> decoded.iat == Seconds(nowMs) && decoded.exp == Seconds(nowMs) + REFRESH_LIFETIME
  {
    var decoded := Verify(token, REFRESH_SECRET, nowMs).value;
    var issued := Seconds(nowMs);
    EncodeInjective(Token(decoded, REFRESH_SECRET), Token(Payload(decoded.userId, issued, issued + REFRESH_LIFETIME), REFRESH_SECRET));
  }

  /**
   * The refresh token handed out at login (its digest stored on the user)
   * rotates successfully for its 7 days.
   */
  lemma IssuedRefreshTokenRotates(users: map<nat, User>, userId: nat, issuedMs: nat, salt: nat, nowMs: nat, newSalt: nat)
    requires userId in users
    requires users[userId].refreshToken == Some(HashRefreshToken(GenerateTokens(userId, issuedMs).refreshToken, salt))
    requires Seconds(nowMs) < Seconds(issuedMs) + REFRESH_LIFETIME
    ensures Rotate(users, GenerateTokens(userId, issuedMs).refreshToken, nowMs, newSalt).0
            == Success(GenerateTokens(userId, nowMs))
  {
    GeneratedPairVerifies(userId, issuedMs, nowMs);
  }

  /** A rotation whose token verifies, whose user holds a digest, and whose comparison accepts the token, succeeds. */
  lemma RotateWithAccepted(compare: Comparison, users: map<nat, User>, token: string, nowMs: nat, salt: nat)
    requires Verify(token, REFRESH_SECRET, nowMs).Success?
    requires var userId := Verify(token, REFRESH_SECRET, nowMs).value.userId;
      userId in users && users[userId].refreshToken.Some? && compare(token, users[userId].refreshToken.value)
    ensures var userId := Verify(token, REFRESH_SECRET, nowMs).value.userId;
      var newTokens := GenerateTokens(userId, nowMs);
      RotateWith(compare, users, token, nowMs, salt)
      == (Success(newTokens), users[userId := users[userId].(refreshToken := Some(HashRefreshToken(newTokens.refreshToken, salt)))])
  {
  }

  /** A rotation whose comparison refuses the token fails and leaves the table alone. */
  lemma RotateWithRefused(compare: Comparison, users: map<nat, User>, token: string, nowMs: nat, salt: nat)
    requires Verify(token, REFRESH_SECRET, nowMs).Success?
    requires var userId := Verify(token, REFRESH_SECRET, nowMs).value.userId;
      userId in users && users[userId].refreshToken.Some? && !compare(token, users[userId].refreshToken.value)
    ensures RotateWith(compare, users, token, nowMs, salt) == (Failure(InvalidRefreshToken), users)
  {
  }

  /**
   * Refresh tokens of one user whose issue seconds agree on the digits
   * bcrypt reads pass bcrypt's comparison against each other's digests.
   */
  lemma SameWindowTokensMatchAsWritten(userId: nat, firstMs: nat, secondMs: nat, salt: nat)
    requires JwtWire.SameBcryptWindow(userId, Seconds(firstMs), Seconds(secondMs))
    ensures CompareAsWritten(GenerateTokens(userId, firstMs).refreshToken,
                             HashRefreshToken(GenerateTokens(userId, secondMs).refreshToken, salt))
  {
    SameWindowRefreshTokensMatch(userId, Seconds(firstMs), Seconds(secondMs), salt);
    RefreshTokenIs(userId, firstMs);
    RefreshTokenIs(userId, secondMs);
  }

  /** The same, for refresh tokens written out by their issue second. */
  lemma SameWindowRefreshTokensMatch(userId: nat, first: nat, second: nat, salt: nat)
    requires JwtWire.SameBcryptWindow(userId, first, second)
    ensures var a := Token(Payload(userId, first, first + REFRESH_LIFETIME), REFRESH_SECRET);
      var b := Token(Payload(userId, second, second + REFRESH_LIFETIME), REFRESH_SECRET);
      CompareAsWritten(Encode(a), HashRefreshToken(Encode(b), salt))
  {
    var a := Token(Payload(userId, first, first + REFRESH_LIFETIME), REFRESH_SECRET);
    var b := Token(Payload(userId, second, second + REFRESH_LIFETIME), REFRESH_SECRET);
    JwtWire.SameBcryptInput(a.payload, b.payload, REFRESH_SECRET, REFRESH_SECRET);
    SameHeadMatchesAsWritten(a, b, salt);
  }

  /** Tokens whose wire strings agree on the bytes bcrypt reads match each other's digests. */
  lemma SameHeadMatchesAsWritten(a: Token, b: Token, salt: nat)
    requires Bcrypt.Truncate(JwtWire.Wire(a)) == Bcrypt.Truncate(JwtWire.Wire(b))
    ensures CompareAsWritten(Encode(a), HashRefreshToken(Encode(b), salt))
  {
    JwtWire.WireOfEncode(a);
    JwtWire.WireOfEncode(b);
  }

  lemma RefreshTokenIs(userId: nat, nowMs: nat)
    ensures var issued := Seconds(nowMs);
      GenerateTokens(userId, nowMs).refreshToken == Encode(Token(Payload(userId, issued, issued + REFRESH_LIFETIME), REFRESH_SECRET))
  {
  }

  /**
   * The reuse detection as written does not hold. A user's refresh token
   * stays usable for the rest of its lifetime after it has been rotated away
   * whenever the rotation happened within bcrypt's window of its issue:
   * bcrypt reads the JWT header and only the first 26 bytes and a quarter of
   * the claims, so the digest of the new token accepts the old one (see
   * `JwtWire.SameBcryptWindow`: 100 seconds for a one-digit user id, the
   * whole lifetime from five digits on). With the whole token compared, the
   * old one is refused.
   */
  lemma {:induction false} StaleTokenRotatesAsWritten(users: map<nat, User>, userId: nat, firstMs: nat, salt: nat,
                                                       secondMs: nat, secondSalt: nat, nowMs: nat, newSalt: nat)
    requires userId in users
    requires users[userId].refreshToken == Some(HashRefreshToken(GenerateTokens(userId, firstMs).refreshToken, salt))
    requires JwtWire.SameBcryptWindow(userId, Seconds(firstMs), Seconds(secondMs))
    requires Seconds(secondMs) < Seconds(firstMs) + REFRESH_LIFETIME
    requires Seconds(nowMs) < Seconds(firstMs) + REFRESH_LIFETIME
    ensures var stale := GenerateTokens(userId, firstMs).refreshToken;
      var (rotated, after) := RotateAsWritten(users, stale, secondMs, secondSalt);
      && Rotate(users, stale, secondMs, secondSalt) == (rotated, after)
      && rotated == Success(GenerateTokens(userId, secondMs))
      && RotateAsWritten(after, stale, nowMs, newSalt).0 == Success(GenerateTokens(userId, nowMs))
      && (Seconds(firstMs) != Seconds(secondMs) ==> Rotate(after, stale, nowMs, newSalt).0 == Failure(InvalidRefreshToken))
  {
    var after := IssuedTokenRotatesEitherWay(users, userId, firstMs, salt, secondMs, secondSalt);
    StaleAcceptedAsWritten(after, userId, firstMs, secondMs, secondSalt, nowMs, newSalt);
    if Seconds(firstMs) != Seconds(secondMs) {
      StaleRefusedInFull(after, userId, firstMs, secondMs, secondSalt, nowMs, newSalt);
    }
  }

  /** A digest of a token from within bcrypt's window lets the older token through bcrypt. */
  lemma StaleAcceptedAsWritten(users: map<nat, User>, userId: nat, firstMs: nat, secondMs: nat, salt: nat, nowMs: nat, newSalt: nat)
    requires userId in users
    requires users[userId].refreshToken == Some(HashRefreshToken(GenerateTokens(userId, secondMs).refreshToken, salt))
    requires JwtWire.SameBcryptWindow(userId, Seconds(firstMs), Seconds(secondMs))
    requires Seconds(nowMs) < Seconds(firstMs) + REFRESH_LIFETIME
    ensures RotateAsWritten(users, GenerateTokens(userId, firstMs).refreshToken, nowMs, newSalt).0
            == Success(GenerateTokens(userId, nowMs))
  {
    SameWindowTokensMatchAsWritten(userId, firstMs, secondMs, salt);
    GeneratedPairVerifies(userId, firstMs, nowMs);
    RotateWithAccepted(CompareAsWritten, users, GenerateTokens(userId, firstMs).refreshToken, nowMs, newSalt);
  }

  /** Compared in full, the digest of a token issued in another second refuses the older token. */
  lemma StaleRefusedInFull(users: map<nat, User>, userId: nat, firstMs: nat, secondMs: nat, salt: nat, nowMs: nat, newSalt: nat)
    requires userId in users
    requires users[userId].refreshToken == Some(HashRefreshToken(GenerateTokens(userId, secondMs).refreshToken, salt))
    requires Seconds(firstMs) != Seconds(secondMs)
    requires Seconds(nowMs) < Seconds(firstMs) + REFRESH_LIFETIME
    ensures Rotate(users, GenerateTokens(userId, firstMs).refreshToken, nowMs, newSalt).0 == Failure(InvalidRefreshToken)
  {
    var f, sec := Seconds(firstMs), Seconds(secondMs);
    EncodeInjective(Token(Payload(userId, f, f + REFRESH_LIFETIME), REFRESH_SECRET),
                    Token(Payload(userId, sec, sec + REFRESH_LIFETIME), REFRESH_SECRET));
    RefreshTokenIs(userId, firstMs);
    RefreshTokenIs(userId, secondMs);
    GeneratedPairVerifies(userId, firstMs, nowMs);
    RotateWithRefused(Bcrypt.Compare, users, GenerateTokens(userId, firstMs).refreshToken, nowMs, newSalt);
  }

  /**
   * The first rotation of a token issued at login: both comparisons accept
   * it, and the table afterwards holds the digest of the token handed out.
   */
  lemma IssuedTokenRotatesEitherWay(users: map<nat, User>, userId: nat, firstMs: nat, salt: nat, secondMs: nat, secondSalt: nat)
    returns (after: map<nat, User>)
    requires userId in users
    requires users[userId].refreshToken == Some(HashRefreshToken(GenerateTokens(userId, firstMs).refreshToken, salt))
    requires Seconds(secondMs) < Seconds(firstMs) + REFRESH_LIFETIME
    ensures var stale := GenerateTokens(userId, firstMs).refreshToken;
      && after == users[userId := users[userId].(refreshToken := Some(HashRefreshToken(GenerateTokens(userId, secondMs).refreshToken, secondSalt)))]
      && RotateAsWritten(users, stale, secondMs, secondSalt) == (Success(GenerateTokens(userId, secondMs)), after)
      && Rotate(users, stale, secondMs, secondSalt) == (Success(GenerateTokens(userId, secondMs)), after)
  {
    var stale := GenerateTokens(userId, firstMs).refreshToken;
    after := users[userId := users[userId].(refreshToken := Some(HashRefreshToken(GenerateTokens(userId, secondMs).refreshToken, secondSalt)))];
    GeneratedPairVerifies(userId, firstMs, secondMs);
    assert CompareAsWritten(stale, users[userId].refreshToken.value);
    RotateWithAccepted(Bcrypt.Compare, users, stale, secondMs, secondSalt);
    RotateWithAccepted(CompareAsWritten, users, stale, secondMs, secondSalt);
  }

  /**
   * The same, on one timeline: user 7 logs in at 1760000000000 ms and
   * rotates 50 seconds later; six days after login the first refresh token
   * still rotates as written, while the whole-token comparison refuses it.
   */
  lemma ReuseAfterRotationExample(users: map<nat, User>, loginMs: nat, rotateMs: nat, replayMs: nat,
                                  salt: nat, secondSalt: nat, newSalt: nat)
    requires loginMs == 1760000000000 && rotateMs == 1760000050000 && replayMs == 1760518400000
    requires 7 in users
    requires users[7].refreshToken == Some(HashRefreshToken(GenerateTokens(7, loginMs).refreshToken, salt))
    ensures var stale := GenerateTokens(7, loginMs).refreshToken;
      var after := RotateAsWritten(users, stale, rotateMs, secondSalt).1;
      && RotateAsWritten(after, stale, replayMs, newSalt).0.Success?
      && Rotate(after, stale, replayMs, newSalt).0 == Failure(InvalidRefreshToken)
  {
    ExampleTimes(loginMs, rotateMs, replayMs);
    StaleTokenRotatesAsWritten(users, 7, loginMs, salt, rotateMs, secondSalt, replayMs, newSalt);
  }

  /** The three instants of the example: one bcrypt window, two different seconds, all within 7 days of login. */
  lemma ExampleTimes(loginMs: nat, rotateMs: nat, replayMs: nat)
    requires loginMs == 1760000000000 && rotateMs == 1760000050000 && replayMs == 1760518400000
    ensures JwtWire.SameBcryptWindow(7, Seconds(loginMs), Seconds(rotateMs)) && Seconds(loginMs) != Seconds(rotateMs)
    ensures Seconds(rotateMs) < Seconds(loginMs) + REFRESH_LIFETIME
    ensures Seconds(replayMs) < Seconds(loginMs) + REFRESH_LIFETIME
  {
    assert Text.Pow10(10) == 10000000000 && Text.Pow10(9) == 1000000000;
    JwtWire.HundredSecondWindow(7, Seconds(loginMs), Seconds(rotateMs));
  }
}
