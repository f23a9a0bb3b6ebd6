/** `generateSignInMessage` and `handleSignIn` of the sign-in button
    (apps/web/src/components/signin-button.tsx). */
module SigninButton {
  import opened Wrappers
  import opened Bytes
  import opened Json
  import Chars
  import Base58
  import Base64
  import Utf8
  import Crypto
  import Wallet
  import SigninSchema
  import ServerEnv
  import Store
  import Auth

  const Preamble := "Sign this message to authenticate with Cause Drop."
  const WalletLine := "\n\nWallet: "
  const TimestampLine := "\nTimestamp: "

  /** Lines 10-13, the timestamp being the `toISOString()` text. */
  function GenerateSignInMessage(publicKey: string, timestamp: string): (m: string)
    ensures |m| == |Preamble| + |WalletLine| + |publicKey| + |TimestampLine| + |timestamp|
    ensures m[..|Preamble| + |WalletLine|] == Preamble + WalletLine
  {
    Preamble + WalletLine + publicKey + TimestampLine + timestamp
  }

  predicate NoNewline(s: string) {
    forall i | 0 <= i < |s| :: s[i] != '\n'
  }

  /** The part of a message after the fixed head splits back into key and timestamp. */
  lemma SplitTail(publicKey: string, timestamp: string)
    ensures var m := GenerateSignInMessage(publicKey, timestamp);
      && var tail := m[|Preamble| + |WalletLine|..];
      && tail == publicKey + TimestampLine + timestamp
      && tail[..|publicKey|] == publicKey
      && tail[|publicKey|] == '\n'
      && tail[|publicKey| + |TimestampLine|..] == timestamp
  {
    var tail := publicKey + TimestampLine + timestamp;
    assert GenerateSignInMessage(publicKey, timestamp) == (Preamble + WalletLine) + tail;
  }

  /** A key without a newline is read back from the message up to the first
      newline after `Wallet: `, so distinct key and timestamp pairs give distinct
      messages. */
  lemma MessageInjective(pk1: string, ts1: string, pk2: string, ts2: string)
    requires NoNewline(pk1) && NoNewline(pk2)
    ensures GenerateSignInMessage(pk1, ts1) == GenerateSignInMessage(pk2, ts2)
        <==> pk1 == pk2 && ts1 == ts2
  {
    if GenerateSignInMessage(pk1, ts1) == GenerateSignInMessage(pk2, ts2) {
      SplitTail(pk1, ts1);
      SplitTail(pk2, ts2);
      var tail := pk1 + TimestampLine + ts1;
      assert tail == pk2 + TimestampLine + ts2;
      if |pk1| < |pk2| {
        assert false;
      } else if |pk2| < |pk1| {
        assert false;
      }
    }
  }

  datatype Outcome = OpenModal | SignFailed | Submit(body: Json)

  /** The message for a key at a time. */
  function MessageFor(key: seq<uint8>, timestamp: string): string {
    GenerateSignInMessage(Wallet.KeyText(key), timestamp)
  }

  /** Lines 20-35: open the wallet modal without a key or signer; otherwise sign
      the UTF-8 bytes of the message and send the key, the base58 signature and
      the message. */
  function HandleSignIn(key: Option<seq<uint8>>, signer: Option<Wallet.Signer>, timestamp: string)
    : (o: Outcome)
    ensures o.OpenModal? <==> key.None? || signer.None?
    ensures o.SignFailed? <==>
      key.Some? && signer.Some? && signer.value(Utf8.Encode(MessageFor(key.value, timestamp))).None?
    ensures o.Submit? ==>
      && var m := MessageFor(key.value, timestamp);
      && var sig := signer.value(Utf8.Encode(m));
      && sig.Some?
      && StringField(o.body, "publicKey") == Some(Wallet.KeyText(key.value))
      && StringField(o.body, "signature") == Some(Base58.Encode(sig.value))
      && StringField(o.body, "message") == Some(m)
      && o.body.JObject? && o.body.fields.Keys == SigninSchema.Keys
  {
    if key.None? || signer.None? then OpenModal
    else
      var message := MessageFor(key.value, timestamp);
      match signer.value(Utf8.Encode(message))
      case None => SignFailed
      case Some(sig) =>
        Submit(SigninSchema.ToJson(SigninSchema.SigninRequest(
          Wallet.KeyText(key.value), Base58.Encode(sig), message)))
  }

  /** Base58 text never holds `=`. */
  lemma Base58HasNoPadding(s: string)
    requires Base58.Decodes(s)
    ensures forall i | 0 <= i < |s| :: s[i] != '='
  {
    forall i | 0 <= i < |s| ensures s[i] != '=' {
      assert Base58.IsAlphabetChar(s[i]);
    }
  }

  /** Whatever the wallet signs, the button's request never signs in: a base58
      signature either fails the canonical-base64 check (400) or, having no `=`,
      decodes to a multiple of three bytes and never to 64 (401).  The store is
      untouched. */
  lemma ButtonSigninNeverSucceeds(env: ServerEnv.Env, key: Option<seq<uint8>>, signer: Option<Wallet.Signer>,
                                  timestamp: string, st: Store.Store, now: string)
    requires HandleSignIn(key, signer, timestamp).Submit?
    ensures var r := Auth.Signin(env, HandleSignIn(key, signer, timestamp).body, st, now);
      r.0.status in {400, 401} && r.1 == st
  {
    var body := HandleSignIn(key, signer, timestamp).body;
    match SigninSchema.Parse(body)
    case None =>
    case Some(req) =>
      var sig := signer.value(Utf8.Encode(MessageFor(key.value, timestamp))).value;
      assert StringField(body, "signature") == Some(req.signature);
      Base58HasNoPadding(Base58.Encode(sig));
      Crypto.UnpaddedSignatureNeverVerifies(env.crypto, req.publicKey, req.signature, req.message);
  }

  /** A concrete signature: 63 zero bytes and the byte 58 are sent as 63 `1`s and
      `21`, 65 characters, which the server rejects with 400. */
  lemma ExampleSignatureRejected()
    ensures Base58.Encode(Zeros(63) + [58]) == Chars.Repeat('1', 63) + "21"
    ensures !Base64.IsCanonical(Base58.Encode(Zeros(63) + [58]))
  {
    Base58.EncodeZerosThen58(63);
    var s := Base58.Encode(Zeros(63) + [58]);
    assert |s| == 65;
    if Base64.IsCanonical(s) {
      Base64.CanonicalShape(s);
    }
  }

  /** The evidently intended button: the signature sent as padded base64. */
  function HandleSignInCorrected(key: Option<seq<uint8>>, signer: Option<Wallet.Signer>, timestamp: string)
    : (o: Outcome)
    ensures o.OpenModal? <==> key.None? || signer.None?
    ensures o.Submit? ==>
      && var m := MessageFor(key.value, timestamp);
      && var sig := signer.value(Utf8.Encode(m));
      && sig.Some?
      && o.body == SigninSchema.ToJson(SigninSchema.SigninRequest(Wallet.KeyText(key.value), Base64.Encode(sig.value), m))
      && SigninSchema.Parse(o.body).Some?
  {
    if key.None? || signer.None? then OpenModal
    else
      var message := MessageFor(key.value, timestamp);
      match signer.value(Utf8.Encode(message))
      case None => SignFailed
      case Some(sig) =>
        SigninSchema.EncodedSignatureAccepted(Wallet.KeyText(key.value), sig, message);
        Submit(SigninSchema.ToJson(SigninSchema.SigninRequest(
          Wallet.KeyText(key.value), Base64.Encode(sig), message)))
  }

  /** With an honest wallet and a reachable database, the corrected request signs in. */
  lemma CorrectedButtonSignsIn(env: ServerEnv.Env, key: seq<uint8>, signer: Wallet.Signer,
                               timestamp: string, st: Store.Store, now: string)
    requires Wallet.Honest(env.crypto, key, signer)
    requires HandleSignInCorrected(Some(key), Some(signer), timestamp).Submit?
    requires st.online
    ensures Auth.Signin(env, HandleSignInCorrected(Some(key), Some(signer), timestamp).body, st, now).0.status == 200
  {
    var m := MessageFor(key, timestamp);
    var sig := signer(Utf8.Encode(m)).value;
    var req := SigninSchema.SigninRequest(Wallet.KeyText(key), Base64.Encode(sig), m);
    SigninSchema.EncodedSignatureAccepted(Wallet.KeyText(key), sig, m);
    Crypto.EncodedSignatureVerified(env.crypto, req.publicKey, sig, m);
    assert Auth.SignatureOk(env, req);
  }
}
