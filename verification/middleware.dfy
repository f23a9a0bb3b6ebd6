/** `authenticateToken` (apps/server/src/middlewares/index.ts): either exactly one
    reply is sent, or `next()` is called once with `req.user` set. */
module Middleware {
  import opened Wrappers
  import opened Json
  import opened Http
  import opened Store
  import opened ServerEnv
  import Jwt
  import Auth

  datatype Outcome = Next(user: User) | Respond(reply: Reply)

  /** Lines 5-51. */
  function AuthenticateToken(env: Env, authorization: Option<string>, st: Store): (o: Outcome)
    ensures o.Next? <==>
      && !Auth.Missing(authorization)
      && var p := env.codec.verify(authorization.value, env.secret);
      && p.Some? && p.value.Claims? && st.online
      && FindUserById(st.users, p.value.userId).Some?
    ensures o.Next? ==>
      && o.user in st.users
      && o.user.id == env.codec.verify(authorization.value, env.secret).value.userId
    ensures Auth.Missing(authorization) ==> o == Respond(Fail(401, "Access token required"))
    ensures !Auth.Missing(authorization) && env.codec.verify(authorization.value, env.secret).None?
      ==> o == Respond(Fail(401, "Invalid token"))
    ensures o.Respond? ==> o.reply.status in {401, 404, 500}
    ensures o.Respond? && o.reply.status == 401 ==>
      o.reply == Fail(401, "Access token required") || o.reply == Fail(401, "Invalid token")
    ensures o.Respond? && o.reply.status == 404 <==>
      && !Auth.Missing(authorization)
      && var p := env.codec.verify(authorization.value, env.secret);
      && p.Some? && p.value.Claims? && st.online
      && FindUserById(st.users, p.value.userId).None?
    ensures o.Respond? && o.reply.status == 500 <==>
      && !Auth.Missing(authorization)
      && var p := env.codec.verify(authorization.value, env.secret);
      && (p == Some(Jwt.NoUserId) || (p.Some? && p.value.Claims? && !st.online))
    ensures o.Respond? && o.reply.status == 404 ==> o.reply.body == FailureBody("User not found")
    ensures o.Respond? && o.reply.status == 500 ==> o.reply.body == FailureBody("Internal server error")
  {
    if Auth.Missing(authorization) then Respond(Fail(401, "Access token required"))
    else
      match env.codec.verify(authorization.value, env.secret)
      case None => Respond(Fail(401, "Invalid token"))
      case Some(NoUserId) => Respond(Fail(500, "Internal server error"))
      case Some(Claims(id, _)) =>
        if !st.online then Respond(Fail(500, "Internal server error"))
        else
          match FindUserById(st.users, id)
          case None => Respond(Fail(404, "User not found"))
          case Some(u) => Next(u)
  }

  /** With a header present the middleware and `verify` make the same decision:
      it continues exactly when `verify` answers 200, and otherwise sends
      `verify`'s own reply. */
  lemma AgreesWithVerify(env: Env, authorization: Option<string>, st: Store)
    requires !Auth.Missing(authorization)
    ensures AuthenticateToken(env, authorization, st).Next? <==> Auth.Verify(env, authorization, st).status == 200
    ensures AuthenticateToken(env, authorization, st).Respond? ==>
      AuthenticateToken(env, authorization, st).reply == Auth.Verify(env, authorization, st)
  {
  }

  /** Without a header they disagree: `verify` answers 403, the middleware 401. */
  lemma MissingTokenStatusesDiffer(env: Env, authorization: Option<string>, st: Store)
    requires Auth.Missing(authorization)
    ensures Auth.Verify(env, authorization, st).status == 403
    ensures AuthenticateToken(env, authorization, st).reply.status == 401
  {
  }

  /** A token from a successful sign-in lets the request through as that user. */
  lemma SigninTokenPasses(env: Env, body: Json, st: Store, now: string)
    requires Jwt.Sound(env.codec)
    requires Auth.Signin(env, body, st, now).0.status == 200
    ensures var (r, st1) := Auth.Signin(env, body, st, now);
      && Path(r.body, ["data", "token"]).Some? && Path(r.body, ["data", "token"]).value.JString?
      && AuthenticateToken(env, Some(Path(r.body, ["data", "token"]).value.s), st1).Next?
  {
    var (r, st1) := Auth.Signin(env, body, st, now);
    Auth.SigninThenVerify(env, body, st, now);
    AgreesWithVerify(env, Some(Path(r.body, ["data", "token"]).value.s), st1);
  }
}
