/** What the client takes from `useWallet()`: the connected key and the wallet's
    `signMessage`, which may refuse (reject or throw). */
module Wallet {
  import opened Wrappers
  import opened Bytes
  import Base58
  import Crypto

  type Signer = seq<uint8> -> Option<seq<uint8>>

  /** `publicKey.toString()` and `publicKey.toBase58()`. */
  function KeyText(key: seq<uint8>): (s: string)
    ensures Base58.Decodes(s)
  {
    Base58.Encode(key)
  }

  /** A wallet whose key the server's key parser reads back, and whose every
      signature is a 64-byte Ed25519 signature under that key. */
  ghost predicate Honest(c: Crypto.Crypto, key: seq<uint8>, sign: Signer) {
    && c.parsePublicKey(KeyText(key)) == Some(key)
    && |key| == Crypto.PublicKeyBytes
    && forall msg: seq<uint8> {:trigger sign(msg)} :: sign(msg).Some? ==>
         |sign(msg).value| == Crypto.SignatureBytes && c.ed25519(msg, sign(msg).value, key)
  }
}
