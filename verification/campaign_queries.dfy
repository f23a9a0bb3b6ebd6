/** The react-query keys, error messages and gates of
    apps/web/src/hooks/useCampaignQueries.ts. */
module CampaignQueries {
  import opened Wrappers
  import opened Json
  import Http

  /** One element of a query key: `undefined` (an omitted `filters`) or a JSON value. */
  datatype KeyPart = Undefined | Value(v: Json)

  function Text(s: string): KeyPart { Value(JString(s)) }

  /** The keys `campaignKeys` can build (lines 21-29). */
  datatype CampaignKey =
    | AllKey
    | ListsKey
    | ListKey(filters: KeyPart)
    | DetailsKey
    | DetailKey(slug: string)
    | SignedUrlKey(mime: string)

  /** `campaignKeys.all`, `lists()`, `list(filters)`, `details()`, `detail(slug)`
      and `signedUrl(mime)`, each extending the one it spreads. */
  function All(): seq<KeyPart> { [Text("campaigns")] }
  function Lists(): seq<KeyPart> { All() + [Text("list")] }
  function List(filters: KeyPart): seq<KeyPart> { Lists() + [filters] }
  function Details(): seq<KeyPart> { All() + [Text("detail")] }
  function Detail(slug: string): seq<KeyPart> { Details() + [Text(slug)] }
  function SignedUrl(mime: string): seq<KeyPart> { All() + [Text("signedUrl"), Text(mime)] }

  /** The array a builder returns. */
  function KeyOf(k: CampaignKey): (key: seq<KeyPart>)
    ensures 1 <= |key| <= 3
  {
    match k
    case AllKey => All()
    case ListsKey => Lists()
    case ListKey(f) => List(f)
    case DetailsKey => Details()
    case DetailKey(slug) => Detail(slug)
    case SignedUrlKey(mime) => SignedUrl(mime)
  }

  /** `queryKey` filter matching: the filter is an element-wise prefix of the key. */
  predicate MatchesFilter(filter: seq<KeyPart>, key: seq<KeyPart>) {
    |filter| <= |key| && key[..|filter|] == filter
  }

  /** Every key lives under `["campaigns"]`. */
  lemma StartsWithCampaigns(k: CampaignKey)
    ensures MatchesFilter(All(), KeyOf(k))
  {
  }

  /** `lists()` is a proper prefix of every `list(filters)`. */
  lemma ListsProperPrefix(f: KeyPart)
    ensures MatchesFilter(Lists(), List(f)) && |Lists()| < |List(f)|
  {
  }

  /** Distinct builders and arguments give distinct keys: the families differ in
      their length or second element, and each argument is kept. */
  lemma KeysInjective(a: CampaignKey, b: CampaignKey)
    ensures KeyOf(a) == KeyOf(b) <==> a == b
  {
    if KeyOf(a) == KeyOf(b) {
      var ka := KeyOf(a);
      assert |ka| == |KeyOf(b)|;
      assert |ka| >= 2 ==> ka[1] == KeyOf(b)[1];
      assert |ka| == 3 ==> ka[2] == KeyOf(b)[2];
    }
  }

  /** react-query identifies a query by `hashKey`: the key's `JSON.stringify`, in
      which an `undefined` array element prints as `null`. */
  function HashPart(p: KeyPart): Json {
    match p
    case Undefined => JNull
    case Value(v) => v
  }

  /** The JSON array react-query hashes for a key. */
  function HashOf(k: CampaignKey): (h: seq<Json>)
    ensures |h| == |KeyOf(k)|
  {
    seq(|KeyOf(k)|, i requires 0 <= i < |KeyOf(k)| => HashPart(KeyOf(k)[i]))
  }

  /** `list()` and `list(null)` are different keys that react-query treats as one query. */
  lemma UndefinedFilterHashesAsNull()
    ensures ListKey(Undefined) != ListKey(Value(JNull))
    ensures HashOf(ListKey(Undefined)) == HashOf(ListKey(Value(JNull)))
  {
  }

  /** A filter that is omitted or a string. */
  predicate PlainFilter(k: CampaignKey) {
    k.ListKey? ==> k.filters.Undefined? || k.filters.v.JString?
  }

  /** For omitted or string filters, distinct keys also hash apart, so each builder
      call names its own query. */
  lemma {:induction false} HashesInjective(a: CampaignKey, b: CampaignKey)
    requires PlainFilter(a) && PlainFilter(b)
    ensures HashOf(a) == HashOf(b) <==> a == b
  {
    if HashOf(a) == HashOf(b) {
      var ka, kb := KeyOf(a), KeyOf(b);
      assert |ka| == |kb|;
      forall i | 0 <= i < |ka|
        ensures ka[i] == kb[i]
      {
        assert HashOf(a)[i] == HashPart(ka[i]);
        assert HashOf(b)[i] == HashPart(kb[i]);
      }
      KeysInjective(a, b);
    }
  }

  /** `detail(slug)` is `["campaigns", "detail", slug]`. */
  lemma DetailShape(slug: string)
    ensures Detail(slug) == [Text("campaigns"), Text("detail"), Text(slug)]
  {
  }

  /** Line 110: invalidating `lists()` after a create refreshes exactly the list keys. */
  lemma InvalidationCoversLists(k: CampaignKey)
    ensures MatchesFilter(Lists(), KeyOf(k)) <==> k.ListsKey? || k.ListKey?
  {
    if MatchesFilter(Lists(), KeyOf(k)) {
      assert KeyOf(k)[1] == Text("list");
    }
  }

  /** JavaScript truthiness of a value that may be `undefined`. */
  predicate Truthy(v: Option<Json>) {
    match v
    case None => false
    case Some(JNull) => false
    case Some(JBool(b)) => b
    case Some(JNumber(n)) => n != 0.0
    case Some(JString(s)) => s != ""
    case Some(_) => true
  }

  const FetchCampaignsFallback := "Failed to fetch campaigns"
  const FetchCampaignFallback := "Failed to fetch campaign"
  const CreateCampaignFallback := "Failed to create campaign"

  /** Lines 54, 85 and 115: `error.response?.data?.message || fallback`;
      `body` is the response body, absent when no response arrived. */
  function ErrorMessage(body: Option<Json>, fallback: string): (m: Json)
    ensures m == JString(fallback) || (body.Some? && Some(m) == Field(body.value, "message"))
    ensures m != JString(fallback) ==> Truthy(Some(m))
    ensures body.None? ==> m == JString(fallback)
    ensures body.Some? && Truthy(Field(body.value, "message")) ==>
      m == Field(body.value, "message").value
  {
    var message := if body.Some? then Field(body.value, "message") else None;
    if Truthy(message) then message.value else JString(fallback)
  }

  /** A body carrying a non-empty `message` string has it shown. */
  lemma ServerMessageShown(body: Json, text: string, fallback: string)
    requires Field(body, "message") == Some(JString(text)) && text != ""
    ensures ErrorMessage(Some(body), fallback) == JString(text)
  {
  }

  /** The server's failure bodies carry `error`, not `message`, so every failure
      the server reports is shown as the fixed fallback. */
  lemma ServerFailureFallsBack(error: string, fallback: string)
    ensures ErrorMessage(Some(Http.FailureBody(error)), fallback) == JString(fallback)
  {
  }

  /** The evidently intended reading: the server's `error` text, or the fallback. */
  function ErrorMessageCorrected(body: Option<Json>, fallback: string): (m: Json)
    ensures m == JString(fallback) || (body.Some? && Some(m) == Field(body.value, "error"))
    ensures m != JString(fallback) ==> Truthy(Some(m))
    ensures body.None? ==> m == JString(fallback)
    ensures body.Some? && Truthy(Field(body.value, "error")) ==>
      m == Field(body.value, "error").value
  {
    var error := if body.Some? then Field(body.value, "error") else None;
    if Truthy(error) then error.value else JString(fallback)
  }

  /** With the corrected reading, a server failure's non-empty text is shown. */
  lemma CorrectedShowsServerError(error: string, fallback: string)
    requires error != ""
    ensures ErrorMessageCorrected(Some(Http.FailureBody(error)), fallback) == JString(error)
  {
  }

  /** Line 90: `enabled: !!slug` -- the detail query runs only for a truthy slug. */
  function DetailEnabled(slug: string): (enabled: bool)
    ensures enabled <==> Truthy(Some(JString(slug)))
  {
    slug != ""
  }
}
