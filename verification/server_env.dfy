/** What the server handlers depend on beyond the request and the store: the
    JWT secret (`process.env.JWT_SECRET`), the token codec, the signature
    primitives, zod's `.url()` check and the unseen `getCampaignSchema` slug check. */
module ServerEnv {
  import Jwt
  import Crypto

  datatype Env = Env(
    secret: string,
    codec: Jwt.Codec,
    crypto: Crypto.Crypto,
    isUrl: string -> bool,
    isValidSlug: string -> bool)
}
