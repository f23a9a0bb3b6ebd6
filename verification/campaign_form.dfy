/** The pure parts of `CampaignForm` (apps/web/src/components/campaign-form.tsx):
    the client schema, the progress meter, the submit gate, the file-size guard,
    the upload progress and the request the form sends. */
module CampaignForm {
  import opened Wrappers
  import opened Bytes
  import opened Json
  import Base58
  import CampaignSchema
  import Chars

  /** The watched form values; `goal` is the number input's value. */
  datatype FormValues = FormValues(title: string, description: string, goal: real, imageUrl: string)

  /** Lines 25-29, every check as declared. */
  predicate TitleOk(title: string) {
    |title| >= 1 && |title| >= 5 && |title| <= 100
  }

  /** Lines 30-34. */
  predicate DescriptionOk(description: string) {
    |description| >= 1 && |description| >= 20 && |description| <= 1000
  }

  /** Lines 35-38. */
  predicate GoalOk(goal: real) {
    goal >= 0.1 && goal <= 10000.0
  }

  /** `campaignSchema`: `imageUrl` may be any string. */
  predicate FormOk(v: FormValues) {
    TitleOk(v.title) && DescriptionOk(v.description) && GoalOk(v.goal)
  }

  /** `min(1)` adds nothing and `max(100)` is inclusive. */
  lemma TitleBounds(title: string)
    ensures TitleOk(title) <==> 5 <= |title| <= 100
  {
  }

  /** `min(1)` adds nothing and `max(1000)` is inclusive. */
  lemma DescriptionBounds(description: string)
    ensures DescriptionOk(description) <==> 20 <= |description| <= 1000
  {
  }

  /** A field counts as filled unless it is `""` or `0` (line 89). */
  predicate Filled(v: Json) {
    v != JString("") && v != JNumber(0.0) && v != JNull
  }

  /** The three required fields as `watch()` reports them. */
  function RequiredValues(v: FormValues): seq<Json> {
    [JString(v.title), JString(v.description), JNumber(v.goal)]
  }

  function CountFilled(values: seq<Json>): (n: nat)
    ensures n <= |values|
    ensures n == |values| <==> forall i | 0 <= i < |values| :: Filled(values[i])
  {
    if |values| == 0 then 0
    else (if Filled(values[0]) then 1 else 0) + CountFilled(values[1..])
  }

  /** Lines 84-98: `Math.round((filled + image) / (3 + 1) * 100)`; every quotient is
      a whole quarter, so the rounding is exact. */
  function CalculateProgress(v: FormValues, hasImage: bool): (p: nat)
    ensures p in {0, 25, 50, 75, 100}
    ensures p == 25 * (CountFilled(RequiredValues(v)) + if hasImage then 1 else 0)
    ensures p == 100 <==> v.title != "" && v.description != "" && v.goal != 0.0 && hasImage
  {
    var values := RequiredValues(v);
    var n := CountFilled(values) + if hasImage then 1 else 0;
    assert values[0] == JString(v.title) && values[1] == JString(v.description) && values[2] == JNumber(v.goal);
    (n * 100) / (|values| + 1)
  }

  /** Line 298. */
  predicate SubmitDisabled(isFormLoading: bool, progress: nat, hasImage: bool) {
    isFormLoading || progress < 100 || !hasImage
  }

  /** The `!imageFile` test is implied: submit is enabled exactly when nothing is
      loading and the meter is full. */
  lemma SubmitEnabledIff(v: FormValues, hasImage: bool, isFormLoading: bool)
    ensures !SubmitDisabled(isFormLoading, CalculateProgress(v, hasImage), hasImage)
        <==> !isFormLoading && CalculateProgress(v, hasImage) == 100
  {
  }

  datatype File = File(size: nat, mimeType: string)

  /** Lines 100-116: the chosen file, and whether the size alert was shown.
      `maxFileSize` is `MAX_FILE_SIZE`, whose value is not part of this model. */
  function HandleImageUpload(chosen: Option<File>, current: Option<File>, maxFileSize: nat)
    : (r: (Option<File>, bool))
    ensures r.1 <==> chosen.Some? && chosen.value.size > maxFileSize
    ensures r.1 || chosen.None? ==> r.0 == current
    ensures !r.1 && chosen.Some? ==> r.0 == chosen
    ensures r.0.Some? && r.0 != current ==> r.0.value.size <= maxFileSize
  {
    match chosen
    case None => (current, false)
    case Some(f) => if f.size > maxFileSize then (current, true) else (Some(f), false)
  }

  /** The signed-URL response: where to PUT the file and the object's name. */
  datatype SignedUrl = SignedUrl(url: string, fileName: string)

  /** Lines 118-144.  `signed` is `None` when the signed-URL request fails and
      `putOk` says whether the PUT succeeded.  The result is the sequence of values
      given to `setUploadProgress` and the URL or the thrown message. */
  function UploadImageToS3(signed: Option<SignedUrl>, putOk: bool, cdnUrl: string)
    : (r: (seq<nat>, Result<string, string>))
    ensures |r.0| >= 2 && r.0[0] == 0 && r.0[|r.0| - 1] == 0
    ensures forall i | 0 <= i < |r.0| :: r.0[i] in {0, 25, 75, 100}
    ensures forall i | 0 < i < |r.0| - 1 :: r.0[i - 1] < r.0[i]
    ensures r.1.Success? <==> signed.Some? && putOk
    ensures r.1.Success? ==> r.0[|r.0| - 2] == 100 && r.1.value == cdnUrl + "/" + signed.value.fileName
    ensures r.1.Failure? ==> r.1.error == "Failed to upload image" && 100 !in r.0
  {
    match signed
    case None => ([0, 0], Failure("Failed to upload image"))
    case Some(s) =>
      if !putOk then ([0, 25, 0], Failure("Failed to upload image"))
      else ([0, 25, 75, 100, 0], Success(cdnUrl + "/" + s.fileName))
  }

  /** Lines 146-161: the body of the create request; the image URL is the uploaded
      one when a file was chosen, and the recipient is the wallet key in base58. */
  function CreateRequest(v: FormValues, uploaded: Option<string>, walletKey: seq<uint8>): (body: Json)
    ensures body.JObject? && body.fields.Keys == CampaignSchema.Keys
    ensures body.fields["title"] == JString(v.title)
    ensures body.fields["description"] == JString(v.description)
    ensures body.fields["goal"] == JNumber(v.goal)
    ensures body.fields["imageUrl"] == JString(if uploaded.Some? then uploaded.value else v.imageUrl)
    ensures body.fields["recipient"] == JString(Base58.Encode(walletKey))
  {
    CampaignSchema.ToJson(CampaignSchema.CampaignInput(
      v.title, v.description, Base58.Encode(walletKey), uploaded.GetOr(v.imageUrl), v.goal))
  }

  /** Every client-valid title and goal meets the server's bounds. */
  lemma ClientBoundsImplyServerBounds(v: FormValues)
    requires TitleOk(v.title) && GoalOk(v.goal)
    ensures |v.title| >= CampaignSchema.MinTitleLength
    ensures CampaignSchema.ValidGoal(v.goal)
  {
  }

  /** A form the client accepts, with an uploaded image the server considers a
      valid image URL, passes the server schema; the server keeps the values
      except for trimming title and description. */
  lemma ClientRequestAccepted(isUrl: string -> bool, v: FormValues, url: string, walletKey: seq<uint8>)
    requires FormOk(v)
    requires CampaignSchema.ValidImageUrl(isUrl, url)
    ensures var r := CampaignSchema.Parse(isUrl, CreateRequest(v, Some(url), walletKey));
      && r.Some?
      && r.value.goal == v.goal && r.value.imageUrl == url
      && r.value.recipient == Base58.Encode(walletKey)
      && r.value.title == Chars.Trim(v.title) && r.value.description == Chars.Trim(v.description)
  {
    var c := CampaignSchema.CampaignInput(v.title, v.description, Base58.Encode(walletKey), url, v.goal);
    CampaignSchema.FieldsToJson(c);
    ClientBoundsImplyServerBounds(v);
  }
}
