/** `verifyWallet` of the header (apps/web/src/components/navbar.tsx): sign a
    statement with the wallet, send it to the server's sign-in, and keep the
    token in local storage. */
module Navbar {
  import opened Wrappers
  import opened Json
  import opened Bytes
  import Base64
  import Utf8
  import Crypto
  import Wallet
  import SigninSchema
  import Http
  import ServerEnv
  import Store
  import Jwt
  import Auth

  const SignInLine := " wants you to sign in with your Solana account:\n"
  const Closing := "\n\nPlease sign in."

  /** Lines 32-36: the statement whose UTF-8 bytes are signed. */
  function Statement(host: string, key: seq<uint8>): (m: string)
    ensures |m| == |host| + |SignInLine| + |Wallet.KeyText(key)| + |Closing|
    ensures m[..|host|] == host && m[|m| - |Closing|..] == Closing
  {
    host + SignInLine + Wallet.KeyText(key) + Closing
  }

  /** `token` on line 30 is truthy: stored and not empty. */
  predicate HasToken(stored: Option<string>) {
    stored.Some? && stored.value != ""
  }

  datatype Outcome = Skip | SignFailed | Submit(body: Json)

  /** Lines 29-46: nothing happens without a key, without a signer or with a token
      already stored; otherwise the statement is signed and sent with the
      signature in padded base64 and the message decoded back from the signed bytes. */
  function VerifyWallet(host: string, key: Option<seq<uint8>>, signer: Option<Wallet.Signer>,
                        stored: Option<string>): (o: Outcome)
    ensures o.Skip? <==> key.None? || signer.None? || HasToken(stored)
    ensures o.SignFailed? <==>
      !o.Skip? && signer.value(Utf8.Encode(Statement(host, key.value))).None?
    ensures o.Submit? ==>
      && var sig := signer.value(Utf8.Encode(Statement(host, key.value)));
      && sig.Some?
      && var req := SigninSchema.SigninRequest(
           Wallet.KeyText(key.value), Base64.Encode(sig.value), Statement(host, key.value));
      && o.body == SigninSchema.ToJson(req)
      && SigninSchema.Parse(o.body) == Some(req)
  {
    if key.None? || signer.None? || HasToken(stored) then Skip
    else
      var statement := Statement(host, key.value);
      var message := Utf8.Encode(statement);
      match signer.value(message)
      case None => SignFailed
      case Some(sig) =>
        Utf8.DecodeEncode(statement);
        SigninSchema.EncodedSignatureAccepted(Wallet.KeyText(key.value), sig, statement);
        Submit(SigninSchema.ToJson(SigninSchema.SigninRequest(
          Wallet.KeyText(key.value), Base64.Encode(sig), Utf8.Decode(message))))
  }

  /** With an honest wallet and a reachable database, the request signs in. */
  lemma RequestSignsIn(env: ServerEnv.Env, host: string, key: seq<uint8>, signer: Wallet.Signer,
                       stored: Option<string>, st: Store.Store, now: string)
    requires Wallet.Honest(env.crypto, key, signer)
    requires VerifyWallet(host, Some(key), Some(signer), stored).Submit?
    requires st.online
    ensures Auth.Signin(env, VerifyWallet(host, Some(key), Some(signer), stored).body, st, now).0.status == 200
  {
    var m := Statement(host, key);
    var sig := signer(Utf8.Encode(m)).value;
    Crypto.EncodedSignatureVerified(env.crypto, Wallet.KeyText(key), sig, m);
    assert Auth.SignatureOk(env, SigninSchema.SigninRequest(Wallet.KeyText(key), Base64.Encode(sig), m));
  }

  /** `String(v)` as `localStorage.setItem` applies it. */
  function StorageText(v: Option<Json>): (s: string)
    ensures v.None? ==> s == "undefined"
    ensures v.Some? && v.value.JString? ==> s == v.value.s
  {
    match v
    case None => "undefined"
    case Some(JString(s)) => s
    case Some(JNull) => "null"
    case Some(JBool(b)) => if b then "true" else "false"
    case Some(JObject(_)) => "[object Object]"
    case Some(_) => ""
  }

  /** Line 48 as written: axios rejects a non-2xx reply, so nothing is stored;
      otherwise `res.data.token`, the `token` at the top of the body, is stored. */
  function StoredTokenAsWritten(reply: Http.Reply): (stored: Option<string>)
    ensures stored.Some? <==> 200 <= reply.status < 300
  {
    if 200 <= reply.status < 300 then Some(StorageText(Path(reply.body, ["token"]))) else None
  }

  /** A success body has only `success` and `data` at the top. */
  lemma NoTopLevelToken(data: Json)
    ensures Path(Http.SuccessBody(data), ["token"]) == None
  {
    assert Field(Http.SuccessBody(data), "token") == None;
  }

  /** Every successful sign-in stores the text "undefined", and from then on the
      guard treats the user as signed in and never signs again. */
  lemma StoresUndefined(env: ServerEnv.Env, host: string, key: seq<uint8>, signer: Wallet.Signer,
                        body: Json, st: Store.Store, now: string)
    requires Auth.Signin(env, body, st, now).0.status == 200
    ensures StoredTokenAsWritten(Auth.Signin(env, body, st, now).0) == Some("undefined")
    ensures VerifyWallet(host, Some(key), Some(signer), Some("undefined")).Skip?
  {
    var r := Auth.Signin(env, body, st, now).0;
    var pk := SigninSchema.Parse(body).value.publicKey;
    var st1 := Auth.Signin(env, body, st, now).1;
    var u := Store.FindUserByAddress(st1.users, pk).value;
    NoTopLevelToken(Auth.SigninData(Jwt.IssueToken(env.codec, env.secret, u.id, pk), u));
  }

  /** The evidently intended line 48: the token under `data`. */
  function StoredTokenCorrected(reply: Http.Reply): (stored: Option<string>)
    ensures stored.Some? <==> 200 <= reply.status < 300
  {
    if 200 <= reply.status < 300 then Some(StorageText(Path(reply.body, ["data", "token"]))) else None
  }

  /** With the corrected read, the stored token passes `verify` for the same user. */
  lemma CorrectedTokenVerifies(env: ServerEnv.Env, body: Json, st: Store.Store, now: string)
    requires Jwt.Sound(env.codec)
    requires Auth.Signin(env, body, st, now).0.status == 200
    ensures var (r, st1) := Auth.Signin(env, body, st, now);
      && StoredTokenCorrected(r).Some?
      && Auth.Verify(env, StoredTokenCorrected(r), st1).status == 200
  {
    Auth.SigninThenVerify(env, body, st, now);
  }
}
