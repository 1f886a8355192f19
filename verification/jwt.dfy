/**
 * jsonwebtoken with HS256, as the token service uses it. A token on the wire
 * is a string: its payload ({ userId, iat, exp }) and the secret that signed
 * it, written here as the decimal fields "userId.iat.exp.key" in place of
 * base64 and HMAC. Secrets are key identifiers; signing is deterministic, as
 * HS256 is, and `Decode` accepts only the exact string `Encode` produces.
 */
module Jwt {
  import opened Wrappers
  import opened Text

  /** Identifies a signing secret (process.env.JWT_SECRET, JWT_REFRESH_SECRET, ...). */
  type Key = nat

  /** The decoded claims `jwt.verify` returns. */
  datatype Payload = Payload(userId: nat, iat: nat, exp: nat)

  datatype Token = Token(payload: Payload, signedWith: Key)

  /** `Math.floor(Date.now() / 1000)`: JWT times are whole seconds. */
  function Seconds(nowMs: nat): nat {
    nowMs / 1000
  }

  function Fields(t: Token): seq<string> {
    [ToString(t.payload.userId), ToString(t.payload.iat), ToString(t.payload.exp), ToString(t.signedWith)]
  }

  function Encode(t: Token): string {
    Join(Fields(t), '.')
  }

  function Decode(s: string): (r: Option<Token>)
    ensures r.Some? ==> Encode(r.value) == s
  {
    var f := Split(s, '.');
    if |f| == 4 && AllDigits(f[0]) && AllDigits(f[1]) && AllDigits(f[2]) && AllDigits(f[3]) then
      var t := Token(Payload(Value(f[0]), Value(f[1]), Value(f[2])), Value(f[3]));
      if Encode(t) == s then Some(t) else None
    else
      None
  }

  lemma DecodeEncode(t: Token)
    ensures Decode(Encode(t)) == Some(t)
  {
    var f := Fields(t);
    forall i | 0 <= i < 4 ensures '.' !in f[i] {
      DigitsAvoid(f[i], '.');
    }
    SplitJoin(f, '.');
    ValueOfToString(t.payload.userId);
    ValueOfToString(t.payload.iat);
    ValueOfToString(t.payload.exp);
    ValueOfToString(t.signedWith);
  }

  /** Two tokens have the same wire form exactly when they are the same token. */
  lemma EncodeInjective(a: Token, b: Token)
    ensures Encode(a) == Encode(b) <==> a == b
  {
    DecodeEncode(a);
    DecodeEncode(b);
  }

  /** A token never contains a space, so it survives the header's split on " ". */
  lemma EncodeHasNoSpace(t: Token)
    ensures Encode(t) != [] && ' ' !in Encode(t)
  {
    var f := Fields(t);
    forall i | 0 <= i < 4 ensures ' ' !in f[i] {
      DigitsAvoid(f[i], ' ');
    }
    JoinAvoids(f, '.', ' ');
    assert Encode(t) == f[0] + ['.'] + Join(f[1..], '.');
  }

  /** `jwt.sign({ userId }, secret, { expiresIn })`, with the lifetime in seconds. */
  function Sign(userId: nat, key: Key, lifetime: nat, nowMs: nat): (s: string)
    ensures Decode(s) == Some(Token(Payload(userId, Seconds(nowMs), Seconds(nowMs) + lifetime), key))
  {
    var t := Token(Payload(userId, Seconds(nowMs), Seconds(nowMs) + lifetime), key);
    DecodeEncode(t);
    Encode(t)
  }

  datatype VerifyError = Malformed | InvalidSignature | Expired

  /**
   * `jwt.verify(token, secret)`: the string must decode, carry this secret's
   * signature, and be checked strictly before its expiry second.
   */
  function Verify(s: string, key: Key, nowMs: nat): (r: Result<Payload, VerifyError>)
    ensures r.Success? ==> s == Encode(Token(r.value, key)) && Seconds(nowMs) < r.value.exp
  {
    match Decode(s)
    case None => Failure(Malformed)
    case Some(t) =>
      if t.signedWith != key then Failure(InvalidSignature)
      else if Seconds(nowMs) >= t.payload.exp then Failure(Expired)
      else Success(t.payload)
  }

  /** A well-formed token is accepted by its own secret until it expires, and by no other. */
  lemma VerifyEncoded(p: Payload, signer: Key, key: Key, nowMs: nat)
    ensures Verify(Encode(Token(p, signer)), key, nowMs) ==
      if signer != key then Failure(InvalidSignature)
      else if Seconds(nowMs) >= p.exp then Failure(Expired)
      else Success(p)
  {
    DecodeEncode(Token(p, signer));
  }

  /** What verifying a freshly signed token gives, at any later (or earlier) time. */
  lemma SignThenVerify(userId: nat, signer: Key, lifetime: nat, issuedMs: nat, key: Key, nowMs: nat)
    ensures Verify(Sign(userId, signer, lifetime, issuedMs), key, nowMs) ==
      if signer != key then Failure(InvalidSignature)
      else if Seconds(nowMs) >= Seconds(issuedMs) + lifetime then Failure(Expired)
      else Success(Payload(userId, Seconds(issuedMs), Seconds(issuedMs) + lifetime))
  {
    VerifyEncoded(Payload(userId, Seconds(issuedMs), Seconds(issuedMs) + lifetime), signer, key, nowMs);
  }
}
