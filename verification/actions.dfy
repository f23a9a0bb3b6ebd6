/** `getCampaignAction` (apps/server/src/controllers/actions/index.ts): the Solana
    Actions ("Blink") description of a campaign, or an `ActionError`.  The slug
    schema and public-key parsing are parameters. */
module Actions {
  import opened Wrappers
  import opened Bytes
  import opened Json
  import opened Http
  import opened Store
  import opened ServerEnv
  import Base58

  /** What the `try` block throws: a string literal, or some other value (an
      `Error` from Prisma or from `new PublicKey`). */
  datatype Thrown = ThrownString(s: string) | ThrownError

  /** Lines 92-94: a thrown string is the message; anything else is generic. */
  function ErrorMessage(t: Thrown): string {
    if t.ThrownString? then t.s else "An unknown error occurred"
  }

  /** The `ActionError` body. */
  function ErrorBody(message: string): (b: Json)
    ensures StringField(b, "message") == Some(message)
  {
    JObject(map["message" := JString(message)])
  }

  datatype Parameter = Parameter(name: string, caption: string, required: bool)

  /** One entry of `links.actions`; every entry has `type: "post"`. */
  datatype LinkedAction = LinkedAction(caption: string, href: string, parameters: seq<Parameter>)

  datatype Payload = Payload(
    title: string, description: string, icon: string, caption: string, actions: seq<LinkedAction>)

  const DonationUrl := "http://localhost:3000/api/actions/donation?to="

  /** Line 48: the donation endpoint for the recipient, whose key is written back
      in base58 by `toBase58()`. */
  function BaseHref(recipientKey: seq<uint8>): string {
    DonationUrl + Base58.Encode(recipientKey)
  }

  function AmountHref(baseHref: string, amount: string): string {
    baseHref + "&amount=" + amount
  }

  /** The amounts of the three fixed buttons, lines 60, 65 and 70. */
  const FixedAmounts: seq<string> := ["0.1", "0.25", "0.5"]

  /** Lines 76-82; the caption is the `label` of the JSON. */
  const AmountParameter := Parameter("amount", "Enter the amount of SOL to send", true)

  /** The caption a button moving `amount` SOL would carry. */
  function LabelFor(amount: string): string {
    "Send " + amount + " SOL"
  }

  /** Lines 57-85, as written. */
  function ActionsAsWritten(baseHref: string): seq<LinkedAction> {
    [ LinkedAction("Send 1 SOL", AmountHref(baseHref, "0.1"), []),
      LinkedAction("Send 5 SOL", AmountHref(baseHref, "0.25"), []),
      LinkedAction("Send 10 SOL", AmountHref(baseHref, "0.5"), []),
      LinkedAction("Send SOL", AmountHref(baseHref, "{amount}"), [AmountParameter]) ]
  }

  /** Exactly four actions: three fixed amounts without parameters, then one whose
      amount is the `{amount}` placeholder filled from the single required
      parameter; every href is the base followed by `&amount=`. */
  lemma ActionsShape(baseHref: string)
    ensures var acts := ActionsAsWritten(baseHref);
      && |acts| == 4
      && (forall i | 0 <= i < 3 :: acts[i].href == AmountHref(baseHref, FixedAmounts[i]) && acts[i].parameters == [])
      && acts[3].href == AmountHref(baseHref, "{amount}")
      && acts[3].parameters == [AmountParameter] && AmountParameter.required
      && forall i | 0 <= i < 4 :: acts[i].href[..|baseHref| + 8] == baseHref + "&amount="
  {
    var acts := ActionsAsWritten(baseHref);
    forall i | 0 <= i < 4
      ensures acts[i].href[..|baseHref| + 8] == baseHref + "&amount="
    {
      var amount := if i == 3 then "{amount}" else FixedAmounts[i];
      assert acts[i].href == (baseHref + "&amount=") + amount;
    }
  }

  /** The three fixed buttons announce ten times or more what they transfer. */
  lemma LabelsDisagreeWithAmounts(baseHref: string)
    ensures var acts := ActionsAsWritten(baseHref);
      forall i | 0 <= i < 3 :: acts[i].caption != LabelFor(FixedAmounts[i])
  {
    assert LabelFor("0.1") == "Send 0.1 SOL";
    assert LabelFor("0.25") == "Send 0.25 SOL";
    assert LabelFor("0.5") == "Send 0.5 SOL";
  }

  /** The action list with each fixed button labelled by the amount it sends. */
  function CorrectedActions(baseHref: string): seq<LinkedAction> {
    [ LinkedAction(LabelFor("0.1"), AmountHref(baseHref, "0.1"), []),
      LinkedAction(LabelFor("0.25"), AmountHref(baseHref, "0.25"), []),
      LinkedAction(LabelFor("0.5"), AmountHref(baseHref, "0.5"), []),
      LinkedAction("Send SOL", AmountHref(baseHref, "{amount}"), [AmountParameter]) ]
  }

  /** In the corrected list every fixed label names the amount its href sends,
      and only the labels differ from the list as written. */
  lemma CorrectedLabelsMatchAmounts(baseHref: string)
    ensures var acts := CorrectedActions(baseHref);
      && |acts| == |ActionsAsWritten(baseHref)| == 4
      && (forall i | 0 <= i < 3 :: acts[i].caption == LabelFor(FixedAmounts[i])
                                && acts[i].href == AmountHref(baseHref, FixedAmounts[i]))
      && forall i | 0 <= i < 4 :: acts[i].href == ActionsAsWritten(baseHref)[i].href
                                && acts[i].parameters == ActionsAsWritten(baseHref)[i].parameters
  {
  }

  /** Lines 23-87: the payload for a slug, or what the `try` block throws. */
  function BuildPayload(env: Env, slug: string, st: Store): (r: Result<Payload, Thrown>)
    ensures !env.isValidSlug(slug) ==> r == Failure(ThrownString("Invalid campaign slug"))
    ensures env.isValidSlug(slug) && st.online && FindCampaignBySlug(st.campaigns, slug).None? ==>
      r == Failure(ThrownString("Campaign doesn't exist"))
    ensures r.Failure? && r.error.ThrownString? ==>
      r.error.s in {"Invalid campaign slug", "Campaign doesn't exist"}
    ensures r.Success? <==>
      && env.isValidSlug(slug) && st.online
      && FindCampaignBySlug(st.campaigns, slug).Some?
      && env.crypto.parsePublicKey(FindCampaignBySlug(st.campaigns, slug).value.recipient).Some?
    ensures r.Success? ==>
      var c := FindCampaignBySlug(st.campaigns, slug).value;
      var key := env.crypto.parsePublicKey(c.recipient).value;
      && r.value.title == c.title && r.value.description == c.description
      && r.value.icon == (if c.imageUrl.Some? then c.imageUrl.value else "")
      && r.value.caption == "Transfer"
      && r.value.actions == ActionsAsWritten(BaseHref(key))
  {
    if !env.isValidSlug(slug) then Failure(ThrownString("Invalid campaign slug"))
    else if !st.online then Failure(ThrownError)
    else
      match FindCampaignBySlug(st.campaigns, slug)
      case None => Failure(ThrownString("Campaign doesn't exist"))
      case Some(c) =>
        match env.crypto.parsePublicKey(c.recipient)
        case None => Failure(ThrownError)
        case Some(key) =>
          Success(Payload(c.title, c.description, c.imageUrl.GetOr(""), "Transfer",
                          ActionsAsWritten(BaseHref(key))))
  }

  function ParameterJson(p: Parameter): Json {
    JObject(map["name" := JString(p.name), "label" := JString(p.caption), "required" := JBool(p.required)])
  }

  function ActionJson(a: LinkedAction): Json {
    var fields := map["label" := JString(a.caption), "href" := JString(a.href), "type" := JString("post")];
    if a.parameters == [] then JObject(fields)
    else JObject(fields["parameters" := JArray(seq(|a.parameters|, i requires 0 <= i < |a.parameters| =>
                                                                  ParameterJson(a.parameters[i])))])
  }

  function PayloadJson(p: Payload): Json {
    JObject(map[
      "type" := JString("action"), "title" := JString(p.title), "description" := JString(p.description),
      "icon" := JString(p.icon), "label" := JString(p.caption),
      "links" := JObject(map["actions" := JArray(seq(|p.actions|, i requires 0 <= i < |p.actions| =>
                                                              ActionJson(p.actions[i])))])])
  }

  /** Lines 22-97: 200 with the payload, or 400 with the error message. */
  function GetCampaignAction(env: Env, slug: string, st: Store): (r: Reply)
    ensures r.status in {200, 400}
    ensures r.status == 200 <==> BuildPayload(env, slug, st).Success?
    ensures r.status == 200 ==> r.body == PayloadJson(BuildPayload(env, slug, st).value)
    ensures r.status == 400 ==>
      r.body == ErrorBody(ErrorMessage(BuildPayload(env, slug, st).error))
  {
    match BuildPayload(env, slug, st)
    case Success(p) => Reply(200, PayloadJson(p))
    case Failure(t) => Reply(400, ErrorBody(ErrorMessage(t)))
  }

  /** The three error messages a caller can see. */
  lemma ErrorMessages(env: Env, slug: string, st: Store)
    ensures GetCampaignAction(env, slug, st).status == 400 ==>
      StringField(GetCampaignAction(env, slug, st).body, "message").value
        in {"Invalid campaign slug", "Campaign doesn't exist", "An unknown error occurred"}
    ensures !env.isValidSlug(slug) ==>
      GetCampaignAction(env, slug, st) == Reply(400, ErrorBody("Invalid campaign slug"))
    ensures env.isValidSlug(slug) && st.online && FindCampaignBySlug(st.campaigns, slug).None? ==>
      GetCampaignAction(env, slug, st) == Reply(400, ErrorBody("Campaign doesn't exist"))
  {
  }

  /** When key parsing reads back its own base58 text, every href starts with the
      donation endpoint followed by the stored recipient. */
  lemma HrefsNameRecipient(env: Env, slug: string, st: Store)
    requires BuildPayload(env, slug, st).Success?
    requires forall s: string :: env.crypto.parsePublicKey(s).Some? ==>
      Base58.Encode(env.crypto.parsePublicKey(s).value) == s
    ensures var c := FindCampaignBySlug(st.campaigns, slug).value;
      var acts := BuildPayload(env, slug, st).value.actions;
      |acts| == 4 && forall i | 0 <= i < 4 :: acts[i].href[..|DonationUrl + c.recipient|] == DonationUrl + c.recipient
  {
    var c := FindCampaignBySlug(st.campaigns, slug).value;
    var key := env.crypto.parsePublicKey(c.recipient).value;
    assert BaseHref(key) == DonationUrl + c.recipient;
    ActionsShape(BaseHref(key));
  }
}
