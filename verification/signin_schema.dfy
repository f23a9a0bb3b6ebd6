/** `signinSchema` (apps/server/src/controllers/auth/validation/index.ts): a
    strict object of three strings; `publicKey` must be base58 text and
    `signature` canonical padded base64. */
module SigninSchema {
  import opened Wrappers
  import opened Json
  import opened Bytes
  import Base58
  import Base64

  datatype SigninRequest = SigninRequest(publicKey: string, signature: string, message: string)

  /** The three keys `.strict()` allows, all of them required. */
  const Keys: set<string> := {"publicKey", "signature", "message"}

  /** The two refinements: `bs58.decode` succeeds, and re-encoding the decoded
      bytes reproduces the signature text.  `message` is unconstrained. */
  predicate Accepts(r: SigninRequest) {
    Base58.Decodes(r.publicKey) && Base64.IsCanonical(r.signature)
  }

  /** The body a client sends for `r`. */
  function ToJson(r: SigninRequest): (body: Json)
    ensures body.JObject? && body.fields.Keys == Keys
    ensures StringField(body, "publicKey") == Some(r.publicKey)
    ensures StringField(body, "signature") == Some(r.signature)
    ensures StringField(body, "message") == Some(r.message)
  {
    JObject(map["publicKey" := JString(r.publicKey), "signature" := JString(r.signature),
                "message" := JString(r.message)])
  }

  /** `signinSchema.safeParse(body)`. */
  function Parse(body: Json): (r: Option<SigninRequest>)
    ensures r.Some? ==> Accepts(r.value) && body == ToJson(r.value)
    ensures r.None? ==> forall q: SigninRequest {:trigger ToJson(q)} :: body == ToJson(q) ==> !Accepts(q)
  {
    if !body.JObject? || body.fields.Keys != Keys then None
    else
      match (StringField(body, "publicKey"), StringField(body, "signature"), StringField(body, "message"))
      case (Some(pk), Some(sig), Some(msg)) =>
        var q := SigninRequest(pk, sig, msg);
        if Accepts(q) then
          assert body.fields == ToJson(q).fields;
          Some(q)
        else
          NoneForRejected(body, q);
          None
      case _ => None
  }

  lemma NoneForRejected(body: Json, q: SigninRequest)
    requires StringField(body, "publicKey") == Some(q.publicKey)
    requires StringField(body, "signature") == Some(q.signature)
    requires StringField(body, "message") == Some(q.message)
    requires !Accepts(q)
    ensures forall p: SigninRequest {:trigger ToJson(p)} :: body == ToJson(p) ==> !Accepts(p)
  {
    forall p: SigninRequest | body == ToJson(p)
      ensures !Accepts(p)
    {
      assert StringField(ToJson(p), "publicKey") == Some(p.publicKey);
    }
  }

  /** Round trip: a request body built from an accepted request parses back to it,
      and one built from a rejected request is refused. */
  lemma ParseToJson(r: SigninRequest)
    ensures Parse(ToJson(r)) == if Accepts(r) then Some(r) else None
  {
  }

  /** A body with any key beyond the three is rejected. */
  lemma ExtraKeyRejected(r: SigninRequest, key: string, v: Json)
    requires key !in Keys
    ensures Parse(JObject(ToJson(r).fields[key := v])) == None
  {
    var b := JObject(ToJson(r).fields[key := v]);
    assert key in b.fields.Keys;
  }

  /** A body missing any of the three keys is rejected. */
  lemma MissingKeyRejected(r: SigninRequest, key: string)
    requires key in Keys
    ensures Parse(JObject(ToJson(r).fields - {key})) == None
  {
    var b := JObject(ToJson(r).fields - {key});
    assert key !in b.fields.Keys;
  }

  /** A base64 signature of any bytes and any base58 key pass, whatever the message. */
  lemma EncodedSignatureAccepted(publicKey: string, sig: seq<uint8>, message: string)
    requires Base58.Decodes(publicKey)
    ensures Parse(ToJson(SigninRequest(publicKey, Base64.Encode(sig), message)))
         == Some(SigninRequest(publicKey, Base64.Encode(sig), message))
  {
    Base64.EncodedIsCanonical(sig);
  }
}
