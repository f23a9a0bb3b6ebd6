/** `createCampaign` (apps/server/src/controllers/app/index.ts) and the route that
    puts `authenticateToken` in front of it (apps/server/src/routers/app/index.ts).
    The random number behind the slug suffix is a parameter: its base-36 rendering. */
module CampaignController {
  import opened Wrappers
  import opened Json
  import opened Http
  import opened Store
  import opened ServerEnv
  import Auth
  import Middleware
  import CampaignSchema
  import Slug

  /** The `campaign` object of the 201 reply; a missing image is `null`. */
  function CampaignJson(c: Campaign): Json {
    JObject(map[
      "id" := Auth.IdJson(c.id), "title" := JString(c.title), "description" := JString(c.description),
      "recipient" := JString(c.recipient),
      "imageUrl" := (if c.imageUrl.Some? then JString(c.imageUrl.value) else JNull),
      "goal" := JNumber(c.goal), "slug" := JString(c.slug), "totalRaised" := JNumber(c.totalRaised),
      "active" := JBool(c.active), "createdAt" := JString(c.createdAt)])
  }

  /** Lines 50-63: the reply echoes every column of the stored row except the owner. */
  lemma CampaignJsonFields(c: Campaign)
    ensures Field(CampaignJson(c), "id") == Some(Auth.IdJson(c.id))
    ensures Field(CampaignJson(c), "title") == Some(JString(c.title))
    ensures Field(CampaignJson(c), "description") == Some(JString(c.description))
    ensures Field(CampaignJson(c), "recipient") == Some(JString(c.recipient))
    ensures Field(CampaignJson(c), "imageUrl")
         == Some(if c.imageUrl.Some? then JString(c.imageUrl.value) else JNull)
    ensures Field(CampaignJson(c), "goal") == Some(JNumber(c.goal))
    ensures Field(CampaignJson(c), "slug") == Some(JString(c.slug))
    ensures Field(CampaignJson(c), "totalRaised") == Some(JNumber(c.totalRaised))
    ensures Field(CampaignJson(c), "active") == Some(JBool(c.active))
    ensures Field(CampaignJson(c), "createdAt") == Some(JString(c.createdAt))
    ensures Field(CampaignJson(c), "userId").None?
  {
  }

  /** The slug line 26 computes for a validated title. */
  function SlugFor(title: string, rendering: string): string {
    Slug.GenerateSlug(title, Slug.RandomSuffix(rendering))
  }

  /** The validated body. */
  function Input(env: Env, body: Json): Option<CampaignSchema.CampaignInput> {
    CampaignSchema.Parse(env.isUrl, body)
  }

  /** Lines 26-74, once the body is valid and the user known: recipient key
      (400), database (500), otherwise a 201 with one new row owned by `user`. */
  function CreateValidated(env: Env, input: CampaignSchema.CampaignInput, user: User, slug: string,
                  st: Store, now: string): (r: (Reply, Store))
    ensures r.0.status in {201, 400, 500}
    ensures r.0.status == 400 <==> env.crypto.parsePublicKey(input.recipient).None?
    ensures r.0.status == 400 ==> r.0 == Fail(400, "Invalid recipient address")
    ensures r.0.status == 500 ==> r.0 == Fail(500, "Internal server error")
    ensures r.0.status != 201 ==> r.1 == st
    ensures r.0.status == 201 <==>
      && env.crypto.parsePublicKey(input.recipient).Some?
      && st.online && FindCampaignBySlug(st.campaigns, slug).None?
    ensures r.0.status == 201 ==>
      && r.1.users == st.users
      && |r.1.campaigns| == |st.campaigns| + 1
      && r.1.campaigns[..|st.campaigns|] == st.campaigns
      && var c := r.1.campaigns[|st.campaigns|];
      && c.title == input.title && c.description == input.description
      && c.recipient == input.recipient && c.imageUrl == Some(input.imageUrl) && c.goal == input.goal
      && c.slug == slug && c.userId == user.id
      && c.totalRaised == 0.0 && c.active && c.createdAt == now
      && Path(r.0.body, ["data", "campaign"]) == Some(CampaignJson(c))
    ensures Valid(st) ==> Valid(r.1)
  {
    if env.crypto.parsePublicKey(input.recipient).None? then (Fail(400, "Invalid recipient address"), st)
    else if !st.online then (Fail(500, "Internal server error"), st)
    else
      match InsertCampaign(st, input.title, input.description, input.recipient,
                           input.imageUrl, input.goal, slug, user.id, now)
      case None => (Fail(500, "Internal server error"), st)
      case Some((st1, c)) =>
        assert st1.campaigns[..|st.campaigns|] == st.campaigns;
        var data := JObject(map["campaign" := CampaignJson(c)]);
        PathIntoData(data, ["campaign"]);
        (Reply(201, SuccessBody(data)), st1)
  }

  /** Lines 7-74: schema (400), then authenticated user (401), then the slug is
      generated from the trimmed title and the rest proceeds as `CreateValidated`. */
  function CreateCampaign(env: Env, body: Json, authUser: Option<User>, rendering: string,
                          st: Store, now: string): (r: (Reply, Store))
    ensures Input(env, body).None? ==> r == (Fail(400, "Validation error"), st)
    ensures Input(env, body).Some? && authUser.None? ==> r == (Fail(401, "User not authenticated"), st)
    ensures Input(env, body).Some? && authUser.Some? ==>
      r == CreateValidated(env, Input(env, body).value, authUser.value,
                  SlugFor(Input(env, body).value.title, rendering), st, now)
    ensures r.0.status != 201 ==> r.1 == st
    ensures r.0.status == 401 ==> authUser.None?
    ensures r.0.status == 201 ==>
      && authUser.Some? && |r.1.campaigns| == |st.campaigns| + 1
      && r.1.campaigns[|st.campaigns|].userId == authUser.value.id
  {
    match Input(env, body)
    case None => (Fail(400, "Validation error"), st)
    case Some(input) =>
      if authUser.None? then (Fail(401, "User not authenticated"), st)
      else CreateValidated(env, input, authUser.value, SlugFor(input.title, rendering), st, now)
  }

  /** `router.post("/campaign", authenticateToken, createCampaign)`. */
  function PostCampaign(env: Env, authorization: Option<string>, body: Json, rendering: string,
                        st: Store, now: string): (r: (Reply, Store))
    ensures Auth.Missing(authorization) ==> r == (Fail(401, "Access token required"), st)
    ensures r.0.status == 401 ==> r.0 != Fail(401, "User not authenticated")
    ensures r.0.status == 201 ==>
      && Middleware.AuthenticateToken(env, authorization, st).Next?
      && |r.1.campaigns| == |st.campaigns| + 1
      && r.1.campaigns[|st.campaigns|].userId
         == env.codec.verify(authorization.value, env.secret).value.userId
    ensures r.0.status != 201 ==> r.1 == st
  {
    match Middleware.AuthenticateToken(env, authorization, st)
    case Respond(reply) => (reply, st)
    case Next(u) =>
      var r := CreateCampaign(env, body, Some(u), rendering, st, now);
      assert r.0.status != 401;
      r
  }

  /** Behind the middleware, an invalid body is only seen once the token is good:
      an anonymous request with a malformed body still gets 401. */
  lemma AuthenticationBeforeValidation(env: Env, body: Json, rendering: string, st: Store, now: string)
    requires CampaignSchema.Parse(env.isUrl, body).None?
    ensures PostCampaign(env, None, body, rendering, st, now).0.status == 401
    ensures CreateCampaign(env, body, None, rendering, st, now).0.status == 400
  {
  }
}
