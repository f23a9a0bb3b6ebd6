/** The pure helpers of the "My campaigns" page (apps/web/src/app/campaign/page.tsx). */
module CampaignList {
  /** The default `maxLength`. */
  const DefaultMaxLength: int := 120

  /** The end index `substring(0, n)` uses on a longer text: negative counts clamp to 0. */
  function ClampedEnd(n: int): nat {
    if n < 0 then 0 else n
  }

  /** Lines 31-34: the text when it fits, otherwise its first `maxLength`
      characters and `...`. */
  function TruncateDescription(text: string, maxLength: int := DefaultMaxLength): (r: string)
    ensures |text| <= maxLength ==> r == text
    ensures |text| > maxLength ==> r == text[..ClampedEnd(maxLength)] + "..."
    ensures |r| <= ClampedEnd(maxLength) + 3
    ensures var k := if |text| < ClampedEnd(maxLength) then |text| else ClampedEnd(maxLength);
      k <= |r| && r[..k] == text[..k]
  {
    if |text| <= maxLength then text else text[..ClampedEnd(maxLength)] + "..."
  }

  /** Truncating an already-truncated text changes nothing. */
  lemma TruncateIdempotent(text: string, maxLength: int)
    ensures TruncateDescription(TruncateDescription(text, maxLength), maxLength)
         == TruncateDescription(text, maxLength)
  {
    var r := TruncateDescription(text, maxLength);
    if |text| > maxLength {
      var m := ClampedEnd(maxLength);
      assert |r| == m + 3 > maxLength;
      assert r[..m] == text[..m];
    }
  }

  /** Lines 52-55. */
  function ShareUrl(origin: string, slug: string): (url: string)
    ensures |url| == |origin| + 10 + |slug|
    ensures url[..|origin|] == origin && url[|origin| + 10..] == slug
  {
    origin + "/campaign/" + slug
  }

  /** On one origin, distinct slugs are shared under distinct URLs. */
  lemma ShareUrlInjective(origin: string, a: string, b: string)
    ensures ShareUrl(origin, a) == ShareUrl(origin, b) <==> a == b
  {
    if ShareUrl(origin, a) == ShareUrl(origin, b) {
      assert a == ShareUrl(origin, a)[|origin| + 10..];
    }
  }
}
