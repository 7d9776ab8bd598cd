/**
 * The collaborators AuthService calls but whose internals are not modelled:
 * bcrypt and the JWT service (JSON Web Tokens, RFC 7519). Each is a field of
 * `Primitives`, an arbitrary total function; the two predicates below state
 * the only facts about them the proofs use.
 */
module Primitives {
  import opened Wrappers

  /** The claims of every token the service issues: `{ sub: user.id, email: user.email }`. */
  datatype Payload = Payload(sub: string, email: string)

  datatype Primitives = Primitives(
    /** `bcrypt.hash(data, 10)`, with the random salt drawn by bcrypt passed in. */
    hash: (string, nat) -> string,
    /** `bcrypt.compare(data, digest)`. */
    compare: (string, string) -> bool,
    /** `jwtService.sign(payload, { expiresIn })` at issue time `iat` (seconds). */
    sign: (Payload, string, nat) -> string,
    /** `jwtService.verify(token)`: the claims, or None where it throws (bad signature, expired, malformed). */
    verify: string -> Option<Payload>)

  /** A digest matches the data it was made from and is never the empty string (a bcrypt digest has 60 characters). */
  ghost predicate HashSound(c: Primitives) {
    forall data, salt :: c.compare(data, c.hash(data, salt)) && c.hash(data, salt) != ""
  }

  /** A token verifies to the claims it was signed with. */
  ghost predicate TokenSound(c: Primitives) {
    forall p, expiresIn, iat :: c.verify(c.sign(p, expiresIn, iat)) == Some(p)
  }

  ghost predicate Sound(c: Primitives) {
    HashSound(c) && TokenSound(c)
  }

  /** A digest matches nothing but the data it was made from: a hasher that reads its whole input. */
  ghost predicate HashBinding(c: Primitives) {
    forall data, other, salt :: c.compare(other, c.hash(data, salt)) ==> other == data
  }

  /** bcrypt reads at most this many bytes of its input; a JWT is ASCII, so bytes and characters agree. */
  const BcryptInputLimit: nat := 72

  /** The part of `s` bcrypt reads. */
  function BcryptPrefix(s: string): string {
    if |s| <= BcryptInputLimit then s else s[..BcryptInputLimit]
  }

  /** bcrypt as it behaves: data that agree on their first 72 characters look the same to compare. */
  ghost predicate Truncates(c: Primitives) {
    forall data, other, salt ::
      BcryptPrefix(other) == BcryptPrefix(data) ==> c.compare(other, c.hash(data, salt)) == c.compare(data, c.hash(data, salt))
  }

  /** The JWT expiry settings read from the environment; None where the variable is unset. */
  datatype JwtEnv = JwtEnv(expiresIn: Option<string>, refreshExpiresIn: Option<string>)

  /** JavaScript's `value || fallback` on a string: unset and empty both fall back. */
  function OrElse(value: Option<string>, fallback: string): (r: string)
    ensures r != "" ==> r == fallback || value == Some(r)
    ensures value.Some? && value.value != "" ==> r == value.value
    ensures (value.None? || value == Some("")) ==> r == fallback
  {
    if value.Some? && value.value != "" then value.value else fallback
  }

  /** `process.env.JWT_EXPIRES_IN || '1h'`. */
  function AccessExpiry(env: JwtEnv): string {
    OrElse(env.expiresIn, "1h")
  }

  /** `process.env.JWT_REFRESH_EXPIRES_IN || '7d'`. */
  function RefreshExpiry(env: JwtEnv): string {
    OrElse(env.refreshExpiresIn, "7d")
  }
}
