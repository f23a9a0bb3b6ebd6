/** `verifySignature` (apps/server/src/utils/verifySignature.ts): parse the
    public key, base64-decode the signature, UTF-8-encode the message and run
    Ed25519.  Key parsing and Ed25519 itself are parameters. */
module Crypto {
  import opened Wrappers
  import opened Bytes
  import Base64
  import Utf8

  /** `parsePublicKey(s)` is `new PublicKey(s).toBytes()`, `None` when the
      constructor throws; `ed25519(msg, sig, pk)` is
      `nacl.sign.detached.verify` on a 64-byte signature and 32-byte key. */
  datatype Crypto = Crypto(
    parsePublicKey: string -> Option<seq<uint8>>,
    ed25519: (seq<uint8>, seq<uint8>, seq<uint8>) -> bool)

  const SignatureBytes := 64
  const PublicKeyBytes := 32

  /** Lines 4-25.  tweetnacl throws on a signature that is not 64 bytes or a key
      that is not 32 bytes, and the `catch` turns that into `false`. */
  function VerifySignature(c: Crypto, publicKey: string, signature: string, message: string): (ok: bool)
    ensures ok <==>
      && c.parsePublicKey(publicKey).Some?
      && |c.parsePublicKey(publicKey).value| == PublicKeyBytes
      && |Base64.Decode(signature)| == SignatureBytes
      && c.ed25519(Utf8.Encode(message), Base64.Decode(signature), c.parsePublicKey(publicKey).value)
  {
    match c.parsePublicKey(publicKey)
    case None => false
    case Some(key) =>
      var sig := Base64.Decode(signature);
      |sig| == SignatureBytes && |key| == PublicKeyBytes && c.ed25519(Utf8.Encode(message), sig, key)
  }

  /** A signature sent as padded base64 is checked byte for byte: the server
      verifies exactly the bytes that were encoded, over exactly the UTF-8 bytes
      of the message. */
  lemma EncodedSignatureVerified(c: Crypto, publicKey: string, sig: seq<uint8>, message: string)
    requires c.parsePublicKey(publicKey).Some? && |c.parsePublicKey(publicKey).value| == PublicKeyBytes
    requires |sig| == SignatureBytes
    ensures VerifySignature(c, publicKey, Base64.Encode(sig), message)
        == c.ed25519(Utf8.Encode(message), sig, c.parsePublicKey(publicKey).value)
  {
    Base64.DecodeEncode(sig);
  }

  /** A signature text without `=` that passes the canonical-base64 check decodes
      to a multiple of three bytes, never to 64, so it never verifies. */
  lemma UnpaddedSignatureNeverVerifies(c: Crypto, publicKey: string, signature: string, message: string)
    requires Base64.IsCanonical(signature)
    requires forall i | 0 <= i < |signature| :: signature[i] != '='
    ensures !VerifySignature(c, publicKey, signature, message)
  {
    Base64.UnpaddedDecodesToGroups(signature);
  }
}
