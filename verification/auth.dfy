/** The `signin` and `verify` handlers (apps/server/src/controllers/auth/index.ts)
    as pure functions from a request and the store to a reply and the new store. */
module Auth {
  import opened Wrappers
  import opened Json
  import opened Http
  import opened Store
  import opened ServerEnv
  import Chars
  import Jwt
  import Crypto
  import SigninSchema

  /** Prisma ids are strings in JSON. */
  function IdJson(id: nat): Json {
    JString(Chars.Decimal(id))
  }

  /** Lines 20-28: the signature check `verifySignature` performs. */
  predicate SignatureOk(env: Env, req: SigninSchema.SigninRequest) {
    Crypto.VerifySignature(env.crypto, req.publicKey, req.signature, req.message)
  }

  /** The `data` of a successful sign-in: the token and the user's id and creation time. */
  function SigninData(token: string, u: User): (d: Json)
    ensures Path(d, ["token"]) == Some(JString(token))
    ensures Path(d, ["user", "id"]) == Some(IdJson(u.id))
    ensures Path(d, ["user", "createdAt"]) == Some(JString(u.createdAt))
  {
    var user := JObject(map["id" := IdJson(u.id), "createdAt" := JString(u.createdAt)]);
    var d := JObject(map["token" := JString(token), "user" := user]);
    assert Path(d, ["user", "id"]) == Path(user, ["id"]);
    assert Path(d, ["user", "createdAt"]) == Path(user, ["createdAt"]);
    d
  }

  /** Lines 9-68.  The checks run in a fixed order: schema (400), signature (401),
      database (500); only a full success touches the store, and then the reply
      carries a token for the stored user with that address. */
  function Signin(env: Env, body: Json, st: Store, now: string): (r: (Reply, Store))
    ensures r.0.status in {200, 400, 401, 500}
    ensures r.0.status == 400 <==> SigninSchema.Parse(body).None?
    ensures r.0.status == 401 <==>
      SigninSchema.Parse(body).Some? && !SignatureOk(env, SigninSchema.Parse(body).value)
    ensures r.0.status == 500 <==>
      SigninSchema.Parse(body).Some? && SignatureOk(env, SigninSchema.Parse(body).value) && !st.online
    ensures r.0.status == 400 ==> r.0.body == FailureBody("Validation error")
    ensures r.0.status == 401 ==> r.0.body == FailureBody("Invalid signature")
    ensures r.0.status == 500 ==> r.0.body == FailureBody("Internal server error")
    ensures r.0.status != 200 ==> r.1 == st
    ensures r.0.status == 200 ==>
      var pk := SigninSchema.Parse(body).value.publicKey;
      && FindUserByAddress(r.1.users, pk).Some?
      && var u := FindUserByAddress(r.1.users, pk).value;
      && r.0.body == SuccessBody(SigninData(Jwt.IssueToken(env.codec, env.secret, u.id, pk), u))
    ensures Valid(st) ==> Valid(r.1)
  {
    match SigninSchema.Parse(body)
    case None => (Fail(400, "Validation error"), st)
    case Some(req) =>
      if !SignatureOk(env, req) then (Fail(401, "Invalid signature"), st)
      else if !st.online then (Fail(500, "Internal server error"), st)
      else
        var (st1, u) := LookupOrCreateUser(st, req.publicKey, now);
        LookupOrCreateFinds(st, req.publicKey, now);
        var token := Jwt.IssueToken(env.codec, env.secret, u.id, req.publicKey);
        (Reply(200, SuccessBody(SigninData(token, u))), st1)
  }

  /** `!token` on line 72: no header, or an empty one. */
  predicate Missing(authorization: Option<string>) {
    authorization.None? || authorization.value == ""
  }

  /** Lines 70-122.  Missing header (403), token rejected by `jwt.verify` (401),
      payload without `userId` or database failure (500), unknown user (404),
      otherwise 200 with the user's id. */
  function Verify(env: Env, authorization: Option<string>, st: Store): (r: Reply)
    ensures r.status in {200, 401, 403, 404, 500}
    ensures r.status == 403 <==> Missing(authorization)
    ensures r.status == 403 ==> r.body == FailureBody("You are not logged in")
    ensures r.status == 401 <==>
      !Missing(authorization) && env.codec.verify(authorization.value, env.secret).None?
    ensures r.status == 401 ==> r.body == FailureBody("Invalid token")
    ensures r.status == 500 ==> r.body == FailureBody("Internal server error")
    ensures r.status == 404 ==> r.body == FailureBody("User not found")
    ensures r.status == 404 <==>
      && !Missing(authorization)
      && var p := env.codec.verify(authorization.value, env.secret);
      && p.Some? && p.value.Claims? && st.online
      && FindUserById(st.users, p.value.userId).None?
    ensures r.status == 500 <==>
      && !Missing(authorization)
      && var p := env.codec.verify(authorization.value, env.secret);
      && (p == Some(Jwt.NoUserId) || (p.Some? && p.value.Claims? && !st.online))
    ensures r.status == 200 <==>
      && !Missing(authorization)
      && var p := env.codec.verify(authorization.value, env.secret);
      && p.Some? && p.value.Claims? && st.online
      && FindUserById(st.users, p.value.userId).Some?
    ensures r.status == 200 ==>
      && Path(r.body, ["data", "valid"]) == Some(JBool(true))
      && Path(r.body, ["data", "user", "id"])
         == Some(IdJson(env.codec.verify(authorization.value, env.secret).value.userId))
  {
    if Missing(authorization) then Fail(403, "You are not logged in")
    else
      match env.codec.verify(authorization.value, env.secret)
      case None => Fail(401, "Invalid token")
      case Some(NoUserId) => Fail(500, "Internal server error")
      case Some(Claims(id, _)) =>
        if !st.online then Fail(500, "Internal server error")
        else
          match FindUserById(st.users, id)
          case None => Fail(404, "User not found")
          case Some(u) => Reply(200, SuccessBody(VerifyData(u)))
  }

  function VerifyData(u: User): (d: Json)
    ensures Path(d, ["valid"]) == Some(JBool(true))
    ensures Path(d, ["user", "id"]) == Some(IdJson(u.id))
  {
    var user := JObject(map["id" := IdJson(u.id)]);
    var d := JObject(map["valid" := JBool(true), "user" := user]);
    assert Path(d, ["user", "id"]) == Path(user, ["id"]);
    d
  }

  /** A body the schema rejects gets the same 400 reply whatever the keys, the
      store or the database state: the signature is never checked. */
  lemma SchemaFailureIndependent(env1: Env, env2: Env, body: Json, st1: Store, st2: Store,
                                 now1: string, now2: string)
    requires SigninSchema.Parse(body).None?
    ensures Signin(env1, body, st1, now1).0 == Signin(env2, body, st2, now2).0
    ensures Signin(env1, body, st1, now1).1 == st1
  {
  }

  /** The first successful sign-in for an address creates exactly one user, with
      the next id and the current time. */
  lemma NewAddressCreatesOneUser(env: Env, body: Json, st: Store, now: string)
    requires Signin(env, body, st, now).0.status == 200
    requires FindUserByAddress(st.users, SigninSchema.Parse(body).value.publicKey).None?
    ensures Signin(env, body, st, now).1
         == st.(users := st.users + [User(|st.users|, SigninSchema.Parse(body).value.publicKey, now)])
  {
  }

  /** A successful sign-in for a known address creates nobody. */
  lemma KnownAddressCreatesNone(env: Env, body: Json, st: Store, now: string)
    requires Signin(env, body, st, now).0.status == 200
    requires FindUserByAddress(st.users, SigninSchema.Parse(body).value.publicKey).Some?
    ensures Signin(env, body, st, now).1 == st
  {
  }

  /** Signing in again with the same address, whatever the message, signature or
      time, returns the same user and leaves the store as the first sign-in left it. */
  lemma RepeatedSigninSameUser(env: Env, body1: Json, body2: Json, st: Store, now1: string, now2: string)
    requires Signin(env, body1, st, now1).0.status == 200
    requires Signin(env, body2, Signin(env, body1, st, now1).1, now2).0.status == 200
    requires SigninSchema.Parse(body1).value.publicKey == SigninSchema.Parse(body2).value.publicKey
    ensures var (r1, st1) := Signin(env, body1, st, now1);
      var (r2, st2) := Signin(env, body2, st1, now2);
      && st2 == st1
      && Path(r2.body, ["data", "user"]) == Path(r1.body, ["data", "user"])
  {
    var (r1, st1) := Signin(env, body1, st, now1);
    var (r2, st2) := Signin(env, body2, st1, now2);
    var pk := SigninSchema.Parse(body1).value.publicKey;
    var u := FindUserByAddress(st1.users, pk).value;
    var d1 := SigninData(Jwt.IssueToken(env.codec, env.secret, u.id, pk), u);
    var d2 := SigninData(Jwt.IssueToken(env.codec, env.secret, u.id, pk), u);
    PathIntoData(d1, ["user"]);
    PathIntoData(d2, ["user"]);
  }

  /** Sign-in followed by `verify` with the returned token under the same secret
      succeeds and reports the same user id. */
  lemma SigninThenVerify(env: Env, body: Json, st: Store, now: string)
    requires Jwt.Sound(env.codec)
    requires Signin(env, body, st, now).0.status == 200
    ensures var (r, st1) := Signin(env, body, st, now);
      && Path(r.body, ["data", "token"]).Some? && Path(r.body, ["data", "token"]).value.JString?
      && var v := Verify(env, Some(Path(r.body, ["data", "token"]).value.s), st1);
      && v.status == 200
      && Path(v.body, ["data", "user", "id"]) == Path(r.body, ["data", "user", "id"])
  {
    var (r, st1) := Signin(env, body, st, now);
    var pk := SigninSchema.Parse(body).value.publicKey;
    var u := FindUserByAddress(st1.users, pk).value;
    var token := Jwt.IssueToken(env.codec, env.secret, u.id, pk);
    var d := SigninData(token, u);
    PathIntoData(d, ["token"]);
    PathIntoData(d, ["user", "id"]);
    assert Path(r.body, ["data", "token"]) == Some(JString(token));
    VerifyStoredUser(env, token, st1, u, pk);
  }

  /** A token whose claims name a stored user passes `verify`. */
  lemma VerifyStoredUser(env: Env, token: string, st: Store, u: User, pk: string)
    requires token != "" && env.codec.verify(token, env.secret) == Some(Jwt.Claims(u.id, pk))
    requires st.online && u in st.users
    ensures Verify(env, Some(token), st).status == 200
    ensures Path(Verify(env, Some(token), st).body, ["data", "user", "id"]) == Some(IdJson(u.id))
  {
  }

  /** Without a header `verify` answers 403 without looking at the store. */
  lemma VerifyMissingHeaderIgnoresStore(env: Env, st1: Store, st2: Store)
    ensures Verify(env, None, st1) == Verify(env, None, st2) == Fail(403, "You are not logged in")
  {
  }
}
