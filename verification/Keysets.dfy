/** The keyset file, its validation, and how a token is checked against it (pkg/jwt). */
module Keysets {
  import opened Common

  const KEYSET_VERSION := 1
  const MIN_SECRET_BYTES := 32
  const MAX_KID_BYTES := 64
  const MAX_KEYS := 2

  type Time = int

  /** An empty `legacyKid` stands for the omitted JSON field. Secrets are byte strings. */
  datatype Keyset = Keyset(version: int, activeKid: string, legacyKid: string, keys: map<string, string>)

  predicate KidChar(c: char) {
    'A' <= c <= 'Z' || 'a' <= c <= 'z' || '0' <= c <= '9' || c == '_' || c == '-'
  }

  predicate ValidKid(kid: string) {
    1 <= |kid| <= MAX_KID_BYTES && forall i | 0 <= i < |kid| :: KidChar(kid[i])
  }

  predicate ValidKeyset(k: Keyset) {
    && k.version == KEYSET_VERSION
    && ValidKid(k.activeKid)
    && (k.legacyKid == "" || ValidKid(k.legacyKid))
    && 1 <= |k.keys| <= MAX_KEYS
    && (forall kid | kid in k.keys :: ValidKid(kid) && |k.keys[kid]| >= MIN_SECRET_BYTES)
    && (forall a, b | a in k.keys && b in k.keys && a != b :: k.keys[a] != k.keys[b])
    && k.activeKid in k.keys
    && (k.legacyKid == "" || k.legacyKid in k.keys)
  }

  /** A signed token: the key ID in its header, if any, the secret it was signed with, its expiry. */
  datatype Token = Token(kid: Option<string>, secret: string, expiresAt: Time)

  /** A token names its key, or falls back to the legacy key when it names none. */
  predicate Verifies(k: Keyset, t: Token) {
    var kid := if t.kid.Some? then t.kid.value else k.legacyKid;
    kid != "" && kid in k.keys && k.keys[kid] == t.secret
  }
}
