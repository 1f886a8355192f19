/**
 * bcrypt as the token service uses it: `hash(text, cost)` with a random
 * salt, and `compare(text, digest)`. The salt is a parameter; the hash
 * function itself is abstract. `Compare` is the intended comparison of the
 * whole text, which the rest of this model relies on; `CompareTruncated` is
 * what the library computes, reading only the first 72 bytes of its input.
 */
module Bcrypt {

  datatype Digest = Digest(cost: nat, salt: nat, plaintext: string)

  /** bcrypt ignores every input byte after the 72nd. */
  const MAX_INPUT_BYTES: nat := 72

  /** The digest records its cost and salt and accepts its own text under either comparison. */
  function Hash(text: string, cost: nat, salt: nat): (d: Digest)
    ensures d.cost == cost && d.salt == salt
    ensures Compare(text, d) && CompareTruncated(text, d)
  {
    Digest(cost, salt, text)
  }

  function Compare(text: string, digest: Digest): bool {
    digest.plaintext == text
  }

  /** The part of an ASCII input bcrypt reads. */
  function Truncate(text: string): (t: string)
    ensures |t| <= MAX_INPUT_BYTES && t <= text
    ensures |text| <= MAX_INPUT_BYTES ==> t == text
    ensures |text| > MAX_INPUT_BYTES ==> t == text[..MAX_INPUT_BYTES]
  {
    if |text| <= MAX_INPUT_BYTES then text else text[..MAX_INPUT_BYTES]
  }

  /** Weaker than `Compare`, and the same on inputs bcrypt reads in full. */
  function CompareTruncated(text: string, digest: Digest): (ok: bool)
    ensures Compare(text, digest) ==> ok
    ensures |text| <= MAX_INPUT_BYTES && |digest.plaintext| <= MAX_INPUT_BYTES ==> (ok <==> Compare(text, digest))
  {
    Truncate(digest.plaintext) == Truncate(text)
  }

  /** A digest accepts its own text and no other, whatever the salt. */
  lemma CompareHash(candidate: string, text: string, cost: nat, salt: nat)
    ensures Compare(candidate, Hash(text, cost, salt)) <==> candidate == text
  {
  }

  /**
   * The library's digest accepts every text sharing the first 72 bytes;
   * for texts no longer than that it is the same as `Compare`.
   */
  lemma CompareTruncatedHash(candidate: string, text: string, cost: nat, salt: nat)
    ensures CompareTruncated(candidate, Hash(text, cost, salt)) <==> Truncate(candidate) == Truncate(text)
    ensures |candidate| <= MAX_INPUT_BYTES && |text| <= MAX_INPUT_BYTES ==>
      (CompareTruncated(candidate, Hash(text, cost, salt)) <==> Compare(candidate, Hash(text, cost, salt)))
    ensures |candidate| > MAX_INPUT_BYTES && |text| > MAX_INPUT_BYTES && candidate[..MAX_INPUT_BYTES] == text[..MAX_INPUT_BYTES] ==>
      CompareTruncated(candidate, Hash(text, cost, salt))
  {
  }
}
