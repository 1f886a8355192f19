/**
 * services/otp.service.js: one-time codes kept in Redis under `otp:<email>`
 * with a 300-second expiry. Issuing overwrites; a matching verification
 * deletes the entry, so a code works once. Mail delivery is a collaborator
 * that succeeds or fails; `crypto.randomInt` is a nondeterministic choice.
 */
module OtpService {
  import opened Wrappers
  import opened Text

  const OTP_TTL_SECONDS: nat := 300
  /** `crypto.randomInt(100000, 999999)`: the upper bound is exclusive. */
  const OTP_MIN: nat := 100000
  const OTP_BOUND: nat := 999999
  const SEND_FAILED := "Failed to send OTP"

  /** A Redis value with its expiry instant in milliseconds. */
  datatype Entry = Entry(value: string, expiresAtMs: nat)

  function OtpKey(email: string): string {
    "otp:" + email
  }

  lemma OtpKeyInjective(a: string, b: string)
    ensures OtpKey(a) == OtpKey(b) <==> a == b
  {
    assert OtpKey(a)[4..] == a && OtpKey(b)[4..] == b;
  }

  /** Redis GET: a key stays live up to and including its expiry instant. */
  function Lookup(entries: map<string, Entry>, key: string, nowMs: nat): Option<string> {
    if key in entries && nowMs <= entries[key].expiresAtMs then Some(entries[key].value) else None
  }

  /** The store after `setex(otp:<email>, 300, code)` at time nowMs. */
  function Issue(entries: map<string, Entry>, email: string, code: string, nowMs: nat): (r: map<string, Entry>)
    ensures forall t: nat :: Lookup(r, OtpKey(email), t) == if t <= nowMs + OTP_TTL_SECONDS * 1000 then Some(code) else None
    ensures r.Keys == entries.Keys + {OtpKey(email)}
    ensures forall k | k in entries && k != OtpKey(email) :: r[k] == entries[k]
  {
    entries[OtpKey(email) := Entry(code, nowMs + OTP_TTL_SECONDS * 1000)]
  }

  /** The store after `del(otp:<email>)`. */
  function Consume(entries: map<string, Entry>, email: string): (r: map<string, Entry>)
    ensures OtpKey(email) !in r
    ensures r.Keys == entries.Keys - {OtpKey(email)}
    ensures forall k | k in r :: r[k] == entries[k]
  {
    entries - {OtpKey(email)}
  }

  /** The check `!storedOtp || storedOtp !== otp` fails: a stored, non-empty, identical code. */
  predicate Accepts(entries: map<string, Entry>, email: string, otp: string, nowMs: nat)
    ensures Accepts(entries, email, otp, nowMs) ==> otp != "" && Lookup(entries, OtpKey(email), nowMs) == Some(otp)
  {
    var stored := Lookup(entries, OtpKey(email), nowMs);
    stored.Some? && stored.value != "" && stored.value == otp
  }

  /** The codes `randomInt(100000, 999999).toString()` can give. */
  predicate IsOtpCode(s: string) {
    |s| == 6 && AllDigits(s) && s[0] != '0' && s != "999999"
  }

  lemma DrawnCodeIsOtpCode(n: nat)
    requires OTP_MIN <= n < OTP_BOUND
    ensures IsOtpCode(ToString(n))
  {
    assert Pow10(5) == 100000 && Pow10(6) == 1000000;
    ToStringLength(n, 6);
    ToStringInjective(n, 999999);
  }

  /** The Redis client, reduced to the keys it holds. */
  class Redis {
    var entries: map<string, Entry>

    constructor ()
      ensures entries == map[]
    {
      entries := map[];
    }

    /** GET: the value while the key is live, `null` once it has expired or was never set. */
    function Get(key: string, nowMs: nat): (r: Option<string>)
      reads this
      ensures r.Some? <==> key in entries && nowMs <= entries[key].expiresAtMs
      ensures r.Some? ==> r.value == entries[key].value
    {
      Lookup(entries, key, nowMs)
    }

    /** SETEX: overwrite the value and restart its expiry. */
    method SetEx(key: string, seconds: nat, value: string, nowMs: nat)
      modifies this
      ensures entries == old(entries)[key := Entry(value, nowMs + seconds * 1000)]
    {
      entries := entries[key := Entry(value, nowMs + seconds * 1000)];
    }

    method Del(key: string)
      modifies this
      ensures entries == old(entries) - {key}
    {
      entries := entries - {key};
    }
  }

  /**
   * `generateOTP(email)`. The code is stored before the mail goes out, so a
   * failed delivery leaves it in place; either failure is reported as
   * "Failed to send OTP". `setexSucceeds` and `mailSucceeds` are the outcomes
   * of the Redis write and of the mail transport.
   */
  method GenerateOtp(redis: Redis, email: string, nowMs: nat, setexSucceeds: bool, mailSucceeds: bool)
    returns (r: Result<string, string>)
    modifies redis
    ensures r.Success? <==> setexSucceeds && mailSucceeds
    ensures r.Failure? ==> r.error == SEND_FAILED
    ensures !setexSucceeds ==> redis.entries == old(redis.entries)
    ensures setexSucceeds ==>
      exists code :: IsOtpCode(code) && redis.entries == Issue(old(redis.entries), email, code, nowMs)
                     && (r.Success? ==> r.value == code)
  {
    var n :| OTP_MIN <= n < OTP_BOUND;
    var otp := ToString(n);
    DrawnCodeIsOtpCode(n);
    if !setexSucceeds {
      return Failure(SEND_FAILED);
    }
    redis.SetEx(OtpKey(email), OTP_TTL_SECONDS, otp, nowMs);
    if !mailSucceeds {
      return Failure(SEND_FAILED);
    }
    return Success(otp);
  }

  /**
   * `verifyOTPFromRedis(email, otp)`: true only for a live, identical code,
   * which is then deleted. Any Redis error (`getSucceeds`, `delSucceeds`
   * false) gives false and nothing is removed.
   */
  method VerifyOtpFromRedis(redis: Redis, email: string, otp: string, nowMs: nat, getSucceeds: bool, delSucceeds: bool)
    returns (valid: bool)
    modifies redis
    ensures valid <==> getSucceeds && delSucceeds && Accepts(old(redis.entries), email, otp, nowMs)
    ensures redis.entries == if valid then Consume(old(redis.entries), email) else old(redis.entries)
  {
    var key := OtpKey(email);
    if !getSucceeds {
      return false;
    }
    var storedOtp := redis.Get(key, nowMs);
    if storedOtp.None? || storedOtp.value == "" || storedOtp.value != otp {
      return false;
    }
    if !delSucceeds {
      return false;
    }
    redis.Del(key);
    return true;
  }

  /**
   * A freshly issued code is accepted exactly when the submission is
   * identical and no more than 300 seconds have passed.
   */
  lemma IssuedCodeAccepted(entries: map<string, Entry>, email: string, code: string, issuedMs: nat, otp: string, nowMs: nat)
    requires IsOtpCode(code)
    ensures Accepts(Issue(entries, email, code, issuedMs), email, otp, nowMs)
            <==> otp == code && nowMs <= issuedMs + OTP_TTL_SECONDS * 1000
  {
  }

  /** After a successful verification the same code (or any other) is refused. */
  lemma ConsumedCodeRejected(entries: map<string, Entry>, email: string, otp: string, nowMs: nat)
    ensures !Accepts(Consume(entries, email), email, otp, nowMs)
  {
  }

  /** Issuing again replaces the earlier entry completely: only the newest code counts. */
  lemma ReissueOverwrites(entries: map<string, Entry>, email: string, first: string, firstMs: nat, second: string, secondMs: nat)
    ensures Issue(Issue(entries, email, first, firstMs), email, second, secondMs) == Issue(entries, email, second, secondMs)
  {
  }

  /** Issuing or consuming a code for one email does not affect another email's code. */
  lemma OtherEmailUnaffected(entries: map<string, Entry>, email: string, other: string, code: string, issuedMs: nat, otp: string, nowMs: nat)
    requires other != email
    ensures Accepts(Issue(entries, email, code, issuedMs), other, otp, nowMs) == Accepts(entries, other, otp, nowMs)
    ensures Accepts(Consume(entries, email), other, otp, nowMs) == Accepts(entries, other, otp, nowMs)
  {
    OtpKeyInjective(email, other);
  }
}
