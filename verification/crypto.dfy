/** The cryptographic collaborators, kept abstract: bcrypt is any function
    `hash` from a password to a digest, compared by `Matches`; the session
    token's signer and verifier are functions the handlers receive. */
module Crypto {
  import opened Wrappers

  /** A bcrypt digest. A separate type from `string`, so the model cannot store
      a plaintext password where a digest belongs. */
  datatype Digest = Digest(encoded: string)

  /** The claim set login signs into a session token. */
  datatype Claims = Claims(id: nat, name: string, email: string, accountVerified: bool)

  /** `bcrypt.compare(candidate, stored)`: the candidate hashes to the stored digest. */
  predicate Matches(hash: string -> Digest, stored: Digest, candidate: string)
  {
    stored == hash(candidate)
  }

  /** A signer and a verifier that agree on `c`, as a JSON Web Token (RFC 7519)
      signed with the shared secret verifies within its validity window. Such a
      token is base64url text and holds no space. */
  predicate SignsAndVerifies(sign: Claims -> string, verify: string -> Option<Claims>, c: Claims)
  {
    verify(sign(c)) == Some(c) && ' ' !in sign(c)
  }
}
