/** `createCampaignSchema` and `imageUrlSchema`
    (apps/server/src/controllers/app/validation/index.ts): a strict object of
    five required fields; `title` and `description` are trimmed on the way out.
    zod's `.url()` check is a parameter. */
module CampaignSchema {
  import opened Wrappers
  import opened Json
  import opened Chars
  import Base58

  datatype CampaignInput = CampaignInput(
    title: string, description: string, recipient: string, imageUrl: string, goal: real)

  const Keys: set<string> := {"title", "description", "recipient", "imageUrl", "goal"}

  /** `.min(2)` on the title, declared before `.trim()`. */
  const MinTitleLength := 2
  /** `.min(0.001)` on the goal. */
  const MinGoal: real := 0.001

  /** `s` ends with the lower-case `suffix`, ignoring the case of ASCII letters. */
  predicate EndsWithIgnoringCase(s: string, suffix: string) {
    |s| >= |suffix| && Lower(s[|s| - |suffix|..]) == suffix
  }

  /** `/\.(jpg|jpeg|png|gif|webp)$/i`. */
  predicate HasImageExtension(url: string) {
    || EndsWithIgnoringCase(url, ".jpg") || EndsWithIgnoringCase(url, ".jpeg")
    || EndsWithIgnoringCase(url, ".png") || EndsWithIgnoringCase(url, ".gif")
    || EndsWithIgnoringCase(url, ".webp")
  }

  /** Lines 4-10: a URL (as zod judges it) ending in an image extension. */
  predicate ValidImageUrl(isUrl: string -> bool, url: string) {
    isUrl(url) && HasImageExtension(url)
  }

  /** Lines 30-33: `.positive()` and `.min(0.001)`. */
  predicate ValidGoal(goal: real) {
    goal > 0.0 && goal >= MinGoal
  }

  /** The field checks, on the values as received. */
  predicate Accepts(isUrl: string -> bool, raw: CampaignInput) {
    && |raw.title| >= MinTitleLength
    && Base58.Decodes(raw.recipient)
    && ValidImageUrl(isUrl, raw.imageUrl)
    && ValidGoal(raw.goal)
  }

  /** The two `.trim()` transforms. */
  function Normalize(raw: CampaignInput): (c: CampaignInput)
    ensures c.recipient == raw.recipient && c.imageUrl == raw.imageUrl && c.goal == raw.goal
    ensures |c.title| <= |raw.title| && |c.description| <= |raw.description|
  {
    raw.(title := Trim(raw.title), description := Trim(raw.description))
  }

  /** The body a client sends for `c`. */
  function ToJson(c: CampaignInput): (body: Json)
    ensures body.JObject? && body.fields.Keys == Keys
  {
    JObject(map["title" := JString(c.title), "description" := JString(c.description),
                "recipient" := JString(c.recipient), "imageUrl" := JString(c.imageUrl),
                "goal" := JNumber(c.goal)])
  }

  /** The raw fields of a body with the right keys and value types. */
  function Fields(body: Json): (r: Option<CampaignInput>)
    ensures r.Some? <==> exists c: CampaignInput {:trigger ToJson(c)} :: body == ToJson(c)
    ensures r.Some? ==> body == ToJson(r.value)
  {
    if !body.JObject? || body.fields.Keys != Keys then None
    else
      match (body.fields["title"], body.fields["description"], body.fields["recipient"],
             body.fields["imageUrl"], body.fields["goal"])
      case (JString(t), JString(d), JString(rc), JString(u), JNumber(g)) =>
        var c := CampaignInput(t, d, rc, u, g);
        assert body.fields == ToJson(c).fields;
        Some(c)
      case _ =>
        assert forall c: CampaignInput {:trigger ToJson(c)} :: body != ToJson(c);
        None
  }

  /** `createCampaignSchema.safeParse(body)`: accepted exactly when the body is the
      encoding of field values that pass every check; the output is those values
      with title and description trimmed. */
  function Parse(isUrl: string -> bool, body: Json): (r: Option<CampaignInput>)
    ensures r.Some? <==> Fields(body).Some? && Accepts(isUrl, Fields(body).value)
    ensures r.Some? ==> r.value == Normalize(Fields(body).value)
  {
    match Fields(body)
    case Some(raw) => if Accepts(isUrl, raw) then Some(Normalize(raw)) else None
    case None => None
  }

  lemma FieldsToJson(c: CampaignInput)
    ensures Fields(ToJson(c)) == Some(c)
  {
  }

  /** Round trip for already trimmed input: it parses back to itself exactly when
      it passes the checks. */
  lemma ParseToJson(isUrl: string -> bool, c: CampaignInput)
    requires Trim(c.title) == c.title && Trim(c.description) == c.description
    ensures Parse(isUrl, ToJson(c)) == if Accepts(isUrl, c) then Some(c) else None
  {
    FieldsToJson(c);
  }

  /** The length check runs before trimming: a title of three spaces passes and
      comes out empty, and so fails if sent again. */
  lemma BlankTitleAccepted(isUrl: string -> bool, c: CampaignInput)
    requires c.title == "   " && Accepts(isUrl, c)
    ensures Parse(isUrl, ToJson(c)) == Some(c.(title := "", description := Trim(c.description)))
    ensures Parse(isUrl, ToJson(c.(title := "", description := Trim(c.description)))).None?
  {
    FieldsToJson(c);
    TrimBlank();
    FieldsToJson(c.(title := "", description := Trim(c.description)));
  }

  lemma TrimBlank()
    ensures Trim("   ") == ""
  {
    assert TrimStart("   ") == "" by {
      assert "   "[1..] == "  ";
      assert "  "[1..] == " ";
      assert " "[1..] == "";
    }
  }

  /** `.positive()` adds nothing: a goal passes exactly when it is at least 0.001. */
  lemma GoalIffMinimum(goal: real)
    ensures ValidGoal(goal) <==> goal >= 0.001
  {
  }

  /** The extension test ignores case: any name ending in `.JPG` passes. */
  lemma UpperCaseExtensionAccepted(name: string)
    ensures HasImageExtension(name + ".JPG")
  {
    var u := name + ".JPG";
    assert u[|u| - 4..] == ".JPG";
    LowerJpg();
  }

  lemma LowerJpg()
    ensures Lower(".JPG") == ".jpg"
  {
  }

  /** The extension is anchored at the end: a URL whose last character is not a
      letter (a query string, a digit, a slash) is rejected. */
  lemma NonLetterEndRejected(url: string)
    requires |url| > 0 && !IsLowerAscii(url[|url| - 1]) && !IsUpperAscii(url[|url| - 1])
    ensures !HasImageExtension(url)
  {
    NotEndingInLetter(url, ".jpg");
    NotEndingInLetter(url, ".jpeg");
    NotEndingInLetter(url, ".png");
    NotEndingInLetter(url, ".gif");
    NotEndingInLetter(url, ".webp");
  }

  lemma NotEndingInLetter(url: string, suffix: string)
    requires |url| > 0 && !IsLowerAscii(url[|url| - 1]) && !IsUpperAscii(url[|url| - 1])
    requires |suffix| > 0 && IsLowerAscii(suffix[|suffix| - 1])
    ensures !EndsWithIgnoringCase(url, suffix)
  {
    if |url| >= |suffix| {
      var t := url[|url| - |suffix|..];
      assert t[|t| - 1] == url[|url| - 1];
      assert Lower(t)[|t| - 1] == ToLowerAscii(url[|url| - 1]);
    }
  }

  /** Any body that is not an object of exactly the five keys is rejected. */
  lemma WrongKeysRejected(isUrl: string -> bool, body: Json)
    requires body.JObject? && body.fields.Keys != Keys
    ensures Parse(isUrl, body).None?
  {
  }
}
