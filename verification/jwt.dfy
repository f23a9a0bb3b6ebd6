/** `jsonwebtoken` as the server uses it: a signer and a verifier under a secret.
    Both are parameters; the one property the handlers rely on is `Sound`. */
module Jwt {
  import opened Wrappers

  /** The decoded payload.  Tokens the server signs carry `{ userId, publicKey }`;
      `NoUserId` stands for any verified payload without a `userId` claim. */
  datatype Payload = Claims(userId: nat, publicKey: string) | NoUserId

  /** `verify` is `None` exactly when `jwt.verify` throws a `JsonWebTokenError`
      (bad signature, malformed or expired token). */
  datatype Codec = Codec(sign: (Payload, string) -> string, verify: (string, string) -> Option<Payload>)

  /** Verifying a token signed with the same secret yields its payload; a signed
      token (three dot-separated segments) is never empty. */
  ghost predicate Sound(codec: Codec) {
    forall p: Payload, secret: string {:trigger codec.sign(p, secret)} ::
      codec.verify(codec.sign(p, secret), secret) == Some(p) && codec.sign(p, secret) != ""
  }

  /** The token `signin` issues (lines 42-48): the claims `{ userId, publicKey }`
      signed with the server secret. */
  function IssueToken(codec: Codec, secret: string, userId: nat, publicKey: string): (token: string)
    ensures Sound(codec) ==> codec.verify(token, secret) == Some(Claims(userId, publicKey)) && token != ""
  {
    codec.sign(Claims(userId, publicKey), secret)
  }
}
