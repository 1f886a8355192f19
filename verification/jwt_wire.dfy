/**
 * The string jsonwebtoken actually sends for an HS256 token:
 * base64url(header) "." base64url(claims JSON) "." signature. The model's
 * `Jwt.Encode` stands for this string; its first 72 bytes are what bcrypt
 * reads when the token service compares a refresh token with its digest.
 * The claims JSON is ASCII, so characters and bytes coincide.
 */
module JwtWire {
  import opened Wrappers
  import opened Text
  import opened Jwt
  import Bcrypt

  /** The base64url alphabet: `A`-`Z`, `a`-`z`, `0`-`9`, `-` and `_`. */
  function Sextet(n: nat): char
    requires n < 64
  {
    if n < 26 then ('A' as int + n) as char
    else if n < 52 then ('a' as int + (n - 26)) as char
    else if n < 62 then ('0' as int + (n - 52)) as char
    else if n == 62 then '-'
    else '_'
  }

  function Byte(c: char): nat {
    (c as int) % 256
  }

  /** Three bytes as four base64url characters. */
  function Quad(a: char, b: char, c: char): (q: string)
    ensures |q| == 4
  {
    var x, y, z := Byte(a), Byte(b), Byte(c);
    [Sextet(x / 4), Sextet((x % 4) * 16 + y / 16), Sextet((y % 16) * 4 + z / 64), Sextet(z % 64)]
  }

  /** base64url without padding, as JWT segments are written. */
  function Base64Url(s: string): (e: string)
    ensures |e| == (4 * |s| + 2) / 3
  {
    if |s| >= 3 then Quad(s[0], s[1], s[2]) + Base64Url(s[3..])
    else if |s| == 2 then Quad(s[0], s[1], '\0')[..3]
    else if |s| == 1 then Quad(s[0], '\0', '\0')[..2]
    else ""
  }

  /** Each group of three input bytes fixes the next four output characters. */
  lemma {:induction false} Base64UrlOfPrefix(s: string, k: nat)
    requires 3 * k <= |s|
    ensures Base64Url(s)[..4 * k] == Base64Url(s[..3 * k])
  {
    if k > 0 {
      var pre := s[..3 * k];
      assert pre[0] == s[0] && pre[1] == s[1] && pre[2] == s[2];
      assert pre[3..] == s[3..][..3 * (k - 1)];
      Base64UrlOfPrefix(s[3..], k - 1);
      var q := Quad(s[0], s[1], s[2]);
      assert Base64Url(pre) == q + Base64Url(pre[3..]);
      assert Base64Url(s) == q + Base64Url(s[3..]);
      assert Base64Url(s)[..4 * k] == q + Base64Url(s[3..])[..4 * (k - 1)];
    }
  }

  /**
   * The JOSE header jsonwebtoken writes for HS256, `{"alg":"HS256","typ":"JWT"}`,
   * already in base64url form (27 bytes, 36 characters).
   */
  const HEADER: string := "eyJhbGciOiJIUzI1NiIsInR5cCI6IkpXVCJ9"

  /** The claims JSON up to the digits of `iat`: `{"userId":<id>,"iat":`. */
  function ClaimsLead(userId: nat): (lead: string)
    ensures |lead| == 17 + |ToString(userId)|
  {
    "{\"userId\":" + ToString(userId) + ",\"iat\":"
  }

  /**
   * `JSON.stringify` of the claims: `userId` from the caller, then `iat` and
   * `exp` added by `jwt.sign`, in that key order.
   */
  function ClaimsJson(p: Payload): (j: string)
    ensures ClaimsLead(p.userId) + ToString(p.iat) <= j
    ensures |j| >= 28 && j[|j| - 1] == '}'
  {
    ClaimsLead(p.userId) + ToString(p.iat) + ",\"exp\":" + ToString(p.exp) + "}"
  }

  /**
   * The token as sent; the HMAC signature is abstract and stood for by the
   * model's own encoding. It is always longer than bcrypt's 72 bytes.
   */
  function Wire(t: Token): (w: string)
    ensures HEADER + "." <= w && |w| > Bcrypt.MAX_INPUT_BYTES
  {
    HEADER + "." + Base64Url(ClaimsJson(t.payload)) + "." + Base64Url(Encode(t))
  }

  /** The wire string a model token string stands for (a string that is no token stands for itself). */
  function WireOf(s: string): string {
    match Decode(s)
    case Some(t) => Wire(t)
    case None => s
  }

  /** A model token string stands for that token's wire string. */
  lemma WireOfEncode(t: Token)
    ensures WireOf(Encode(t)) == Wire(t)
  {
    DecodeEncode(t);
  }

  /** Second counts with ten digits: every `iat` from September 2001 to the year 2286. */
  predicate TenDigits(n: nat) {
    Pow10(9) <= n < Pow10(10)
  }

  /**
   * How many leading digits of `iat` lie within the first 26 bytes of the
   * claims: nine less the digits of the user id, and none from nine digits on.
   */
  function VisibleIatDigits(userId: nat): (v: nat)
    ensures |ToString(userId)| <= 9 ==> v == 9 - |ToString(userId)|
    ensures |ToString(userId)| >= 9 ==> v == 0
  {
    var lead := |ClaimsLead(userId)|;
    if lead >= 26 then 0 else 26 - lead
  }

  /** Two ten-digit `iat` values that agree on the digits bcrypt sees in a token of this user. */
  predicate SameBcryptWindow(userId: nat, iat: nat, otherIat: nat) {
    && TenDigits(iat) && TenDigits(otherIat)
    && (var v := VisibleIatDigits(userId);
        v <= |ToString(iat)| && v <= |ToString(otherIat)| && ToString(iat)[..v] == ToString(otherIat)[..v])
  }

  /** The third character of a group sees only the top two bits of the group's third byte. */
  lemma QuadHead(a: char, b: char, c: char, d: char)
    requires Byte(c) / 64 == Byte(d) / 64
    ensures Quad(a, b, c)[..3] == Quad(a, b, d)[..3]
  {
  }

  /** Dropping k groups of three input bytes drops the first 4k output characters. */
  lemma {:induction false} Base64UrlOfSuffix(s: string, k: nat)
    requires 3 * k <= |s|
    ensures Base64Url(s)[4 * k..] == Base64Url(s[3 * k..])
  {
    if k > 0 {
      assert Base64Url(s) == Quad(s[0], s[1], s[2]) + Base64Url(s[3..]);
      Base64UrlOfSuffix(s[3..], k - 1);
      assert s[3..][3 * (k - 1)..] == s[3 * k..];
    }
  }

  /** Group k of the encoding is the quad of bytes 3k, 3k + 1 and 3k + 2. */
  lemma Base64UrlGroup(s: string, k: nat)
    requires 3 * k + 3 <= |s|
    ensures |Base64Url(s)| >= 4 * k + 4
    ensures Base64Url(s)[4 * k..4 * k + 4] == Quad(s[3 * k], s[3 * k + 1], s[3 * k + 2])
  {
    Base64UrlOfSuffix(s, k);
    var rest := s[3 * k..];
    assert rest[0] == s[3 * k] && rest[1] == s[3 * k + 1] && rest[2] == s[3 * k + 2];
    assert Base64Url(rest) == Quad(rest[0], rest[1], rest[2]) + Base64Url(rest[3..]);
    assert Base64Url(s)[4 * k..4 * k + 4] == Base64Url(s)[4 * k..][..4];
  }

  /**
   * The first 35 characters of an encoding depend on bytes 0 to 25 and on
   * the top two bits of byte 26 only.
   */
  lemma Base64UrlHead(s: string, t: string)
    requires |s| >= 27 && |t| >= 27 && s[..26] == t[..26]
    requires Byte(s[26]) / 64 == Byte(t[26]) / 64
    ensures |Base64Url(s)| >= 36 && |Base64Url(t)| >= 36
    ensures Base64Url(s)[..35] == Base64Url(t)[..35]
  {
    assert s[..24] == s[..26][..24] && t[..24] == t[..26][..24];
    Base64UrlOfPrefix(s, 8);
    Base64UrlOfPrefix(t, 8);
    NinthGroupHead(s, t);
    SameHead(Base64Url(s), Base64Url(t));
  }

  lemma NinthGroupHead(s: string, t: string)
    requires |s| >= 27 && |t| >= 27 && s[..26] == t[..26]
    requires Byte(s[26]) / 64 == Byte(t[26]) / 64
    ensures |Base64Url(s)| >= 36 && |Base64Url(t)| >= 36
    ensures Base64Url(s)[32..36][..3] == Base64Url(t)[32..36][..3]
  {
    assert s[24] == s[..26][24] == t[24] && s[25] == s[..26][25] == t[25];
    NinthGroup(s);
    NinthGroup(t);
    QuadHead(s[24], s[25], s[26], t[26]);
  }

  lemma NinthGroup(s: string)
    requires |s| >= 27
    ensures |Base64Url(s)| >= 36 && Base64Url(s)[32..36] == Quad(s[24], s[25], s[26])
  {
    Base64UrlGroup(s, 8);
  }

  lemma SameHead(a: string, b: string)
    requires |a| >= 36 && |b| >= 36 && a[..32] == b[..32] && a[32..36][..3] == b[32..36][..3]
    ensures a[..35] == b[..35]
  {
    assert a[..35] == a[..32] + a[32..36][..3];
    assert b[..35] == b[..32] + b[32..36][..3];
  }

  lemma TruncateWire(claims: string, signature: string)
    requires |claims| >= 36
    ensures Bcrypt.Truncate(HEADER + "." + claims + "." + signature) == HEADER + "." + claims[..35]
  {
    var head := HEADER + ".";
    assert (head + claims + "." + signature)[..72] == head + claims[..35];
  }

  /** What bcrypt reads of a token: the header, the dot, and the first 35 characters of the encoded claims. */
  lemma BcryptReadsHead(t: Token)
    ensures |Base64Url(ClaimsJson(t.payload))| >= 36
    ensures Bcrypt.Truncate(Wire(t)) == HEADER + "." + Base64Url(ClaimsJson(t.payload))[..35]
  {
    TruncateWire(Base64Url(ClaimsJson(t.payload)), Base64Url(Encode(t)));
  }

  /**
   * Claims of one user whose `iat` agree on the digits bcrypt sees agree on
   * their first 26 bytes, and byte 26 is a digit in both (below 64) or the
   * same character of the lead.
   */
  lemma ClaimsHead(p: Payload, q: Payload)
    requires p.userId == q.userId && SameBcryptWindow(p.userId, p.iat, q.iat)
    ensures |ClaimsJson(p)| >= 27 && |ClaimsJson(q)| >= 27
    ensures ClaimsJson(p)[..26] == ClaimsJson(q)[..26]
    ensures Byte(ClaimsJson(p)[26]) / 64 == Byte(ClaimsJson(q)[26]) / 64
  {
    ClaimsPrefix(p);
    ClaimsPrefix(q);
    var jp, jq := ClaimsJson(p), ClaimsJson(q);
    if |ClaimsLead(p.userId)| > 26 {
      assert jp[..26] == jp[..27][..26] && jq[..26] == jq[..27][..26];
      assert jp[26] == jp[..27][26] && jq[26] == jq[..27][26];
    }
  }

  /** The first 27 bytes of the claims: the lead and the visible digits of `iat`, then a digit. */
  lemma ClaimsPrefix(p: Payload)
    requires TenDigits(p.iat)
    ensures |ClaimsJson(p)| >= 27
    ensures var lead, a := ClaimsLead(p.userId), ToString(p.iat);
      if |lead| <= 26 then
        && VisibleIatDigits(p.userId) < |a|
        && ClaimsJson(p)[..26] == lead + a[..VisibleIatDigits(p.userId)]
        && Byte(ClaimsJson(p)[26]) / 64 == 0
      else ClaimsJson(p)[..27] == lead[..27]
  {
    var lead, a := ClaimsLead(p.userId), ToString(p.iat);
    ToStringLength(p.iat, 10);
    var j := ClaimsJson(p);
    assert j[..|lead + a|] == lead + a;
    if |lead| <= 26 {
      var v := 26 - |lead|;
      assert j[..26] == (lead + a)[..26] == lead + a[..v];
      assert j[26] == a[v] && IsDigit(a[v]);
    } else {
      assert j[..27] == (lead + a)[..27] == lead[..27];
    }
  }

  /**
   * Two tokens of the same user whose `iat` agree on the digits bcrypt sees
   * give bcrypt the same input, whatever their expiry and secret.
   */
  lemma SameBcryptInput(p: Payload, q: Payload, key: Key, otherKey: Key)
    requires p.userId == q.userId && SameBcryptWindow(p.userId, p.iat, q.iat)
    ensures Bcrypt.Truncate(Wire(Token(p, key))) == Bcrypt.Truncate(Wire(Token(q, otherKey)))
  {
    ClaimsHead(p, q);
    Base64UrlHead(ClaimsJson(p), ClaimsJson(q));
    BcryptReadsHead(Token(p, key));
    BcryptReadsHead(Token(q, otherKey));
  }

  /** A one-digit user id leaves eight digits of `iat` visible: tokens issued in the same 100 seconds match. */
  lemma HundredSecondWindow(userId: nat, iat: nat, otherIat: nat)
    requires userId < 10 && TenDigits(iat) && TenDigits(otherIat) && iat / 100 == otherIat / 100
    ensures SameBcryptWindow(userId, iat, otherIat)
  {
    assert ToString(userId) == [DigitChar(userId)];
    assert VisibleIatDigits(userId) == 8;
    ThreeLeadingDigits(iat);
    ThreeLeadingDigits(otherIat);
  }

  /** The first eight digits of a ten-digit number print its hundreds. */
  lemma ThreeLeadingDigits(n: nat)
    requires TenDigits(n)
    ensures |ToString(n)| == 10 && ToString(n)[..8] == ToString(n / 100)
  {
    ToStringLength(n, 10);
    assert Pow10(7) <= n / 100 < Pow10(8);
    ToStringLength(n / 100, 8);
    assert (n / 10) / 10 == n / 100;
    assert ToString(n / 10) == ToString(n / 100) + [DigitChar((n / 10) % 10)];
    assert ToString(n) == ToString(n / 10) + [DigitChar(n % 10)];
  }

  /** From nine digits of user id on, bcrypt sees no digit of `iat`: every two tokens of the user match. */
  lemma LongIdNoWindow(userId: nat, iat: nat, otherIat: nat)
    requires |ToString(userId)| >= 9 && TenDigits(iat) && TenDigits(otherIat)
    ensures SameBcryptWindow(userId, iat, otherIat)
  {
  }
}
