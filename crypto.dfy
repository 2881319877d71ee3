/**
 * bcrypt and JWT signing, which the core calls but does not implement, as
 * function values. The randomness bcrypt draws (its salt) and the second at
 * which a token is signed are explicit arguments.
 */
module Crypto {

  /**
   * `hash(secret, salt)` is `bcrypt.hash(secret, 10)` when bcrypt draws `salt`;
   * `compare(secret, digest)` is `bcrypt.compare(secret, digest)`.
   */
  datatype Bcrypt = Bcrypt(hash: (string, nat) -> string, compare: (string, string) -> bool)

  /** The claims both token kinds carry: `{ email, sub, empId }`. */
  datatype Claims = Claims(email: string, sub: int, empId: string)

  /** The module-wide access-token settings, or the refresh secret and lifetime passed per call. */
  datatype SigningKey = AccessKey | RefreshKey(secret: string, expiresIn: string)

  /**
   * `sign(claims, key, iat)` is `jwtService.signAsync(claims, key)` during second `iat`;
   * two calls with the same claims and key in the same second give the same token.
   */
  datatype Jwt = Jwt(sign: (Claims, SigningKey, nat) -> string)

  /**
   * Idealised round trip: a digest is never empty and verifies the secret it was made from.
   * bcrypt digests are 60 characters, so this is what bcrypt promises.
   */
  ghost predicate HashVerifies(b: Bcrypt) {
    forall s, salt :: b.hash(s, salt) != "" && b.compare(s, b.hash(s, salt))
  }

  /**
   * Idealised binding: a digest verifies only the secret it was made from.
   * bcrypt does NOT promise this: it reads only the first 72 bytes of the
   * secret (see `TruncatesAt72`).
   */
  ghost predicate HashBinds(b: Bcrypt) {
    forall s, t, salt :: b.compare(s, b.hash(t, salt)) ==> s == t
  }

  /**
   * What bcrypt actually does with long secrets: only the first 72 bytes enter
   * the digest, so two secrets that agree there verify against each other's digests.
   */
  ghost predicate TruncatesAt72(b: Bcrypt) {
    forall s, t, salt :: |s| >= 72 && |t| >= 72 && s[..72] == t[..72] ==> b.compare(s, b.hash(t, salt))
  }
}
