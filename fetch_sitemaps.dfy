/** The `/api/fetch-sitemaps` route: validate the request, fetch one sitemap
    index and list the `loc` of every `sitemap` entry, unfiltered. */
module FetchSitemapsRoute {
  import opened Wrappers
  import opened Sitemap

  /** A value `req.json()` can produce. */
  datatype JsonValue =
    | JNull
    | JBool(b: bool)
    | JNumber(x: real)
    | JString(s: string)
    | JArray(elements: seq<JsonValue>)
    | JObject(fields: map<string, JsonValue>)

  /** JavaScript truthiness of a JSON value. */
  predicate Truthy(v: JsonValue) {
    match v
    case JNull => false
    case JBool(b) => b
    case JNumber(x) => x != 0.0
    case JString(s) => s != ""
    case JArray(_) => true
    case JObject(_) => true
  }

  /** What the handler makes of the request before it fetches anything.
      `Malformed` is every way of ending in the `catch` at that point;
      `Json(None)` is a falsy `sitemapUrl`; `Json(Some(u))` is a non-empty
      string `u`. */
  datatype RequestBody = Malformed | Json(sitemapUrl: Option<string>)

  /** `req.json()` (`None` when it throws) followed by
      `const { sitemapUrl } = body`. Destructuring `null` throws; any other
      value without the property yields `undefined`. A truthy `sitemapUrl`
      that is not a string is handed to `axios.get`, which rejects it, so it
      also ends in the `catch`. */
  function ReadBody(parsed: Option<JsonValue>): (b: RequestBody)
    ensures parsed.None? || parsed == Some(JNull) ==> b == Malformed
    ensures parsed.Some? && parsed.value.JObject? && "sitemapUrl" in parsed.value.fields ==>
      var v := parsed.value.fields["sitemapUrl"];
      && (!Truthy(v) ==> b == Json(None))
      && (Truthy(v) && v.JString? ==> b == Json(Some(v.s)))
      && (Truthy(v) && !v.JString? ==> b == Malformed)
    ensures parsed.Some? && parsed.value != JNull && !(parsed.value.JObject? && "sitemapUrl" in parsed.value.fields)
      ==> b == Json(None)
  {
    match parsed
    case None => Malformed
    case Some(JNull) => Malformed
    case Some(JObject(fields)) =>
      if "sitemapUrl" !in fields then Json(None)
      else
        var v := fields["sitemapUrl"];
        if !Truthy(v) then Json(None)
        else if v.JString? then Json(Some(v.s))
        else Malformed
    case Some(_) => Json(None)
  }

  datatype SitemapsResponse =
    | SubSitemaps(subSitemaps: seq<string>)
    | JsonError(status: nat, error: string)

  const MissingUrl := JsonError(400, "Missing sitemapUrl")
  const InvalidStructure := JsonError(400, "Invalid sitemap structure")
  const FetchFailed := JsonError(500, "Failed to fetch sitemaps")

  /** `!sitemapUrl` for a string property. */
  predicate MissingSitemapUrl(body: RequestBody)
    requires body.Json?
  {
    body.sitemapUrl.None? || body.sitemapUrl.value == ""
  }

  /** `POST` as written: a single `sitemap` entry is not an array, so `.map`
      throws and the handler answers 500. */
  function Post(body: RequestBody, load: Loader): (r: SitemapsResponse)
    ensures body.Malformed? ==> r == FetchFailed
    ensures body.Json? && MissingSitemapUrl(body) ==> r == MissingUrl
    ensures body.Json? && !MissingSitemapUrl(body) && load(body.sitemapUrl.value).None? ==> r == FetchFailed
    ensures body.Json? && !MissingSitemapUrl(body) && load(body.sitemapUrl.value).Some? ==>
      var doc := load(body.sitemapUrl.value).value;
      doc.sitemapindex.None? || doc.sitemapindex.value.sitemap.Absent? ==> r == InvalidStructure
    ensures r.SubSitemaps? ==>
      && body.Json? && !MissingSitemapUrl(body)
      && load(body.sitemapUrl.value).Some?
      && var doc := load(body.sitemapUrl.value).value;
         && doc.sitemapindex.Some? && doc.sitemapindex.value.sitemap.Many?
         && r.subSitemaps == Locs(doc.sitemapindex.value.sitemap.entries)
  {
    match body
    case Malformed => FetchFailed
    case Json(url) =>
      if url.None? || url.value == "" then MissingUrl
      else match load(url.value)
        case None => FetchFailed
        case Some(doc) =>
          if doc.sitemapindex.None? || doc.sitemapindex.value.sitemap.Absent? then InvalidStructure
          else match doc.sitemapindex.value.sitemap
            case Single(_) => FetchFailed
            case Many(entries) => SubSitemaps(Locs(entries))
  }

  /** `POST` with the single-entry case normalised to a one-element list, as
      the newer crawl does for `urlset`. */
  function PostNormalized(body: RequestBody, load: Loader): (r: SitemapsResponse)
    ensures body.Json? && !MissingSitemapUrl(body) && load(body.sitemapUrl.value).Some? &&
            load(body.sitemapUrl.value).value.sitemapindex.Some? ==>
      match load(body.sitemapUrl.value).value.sitemapindex.value.sitemap
      case Absent => r == InvalidStructure
      case Single(e) => r == SubSitemaps([e.loc])
      case Many(entries) => r == SubSitemaps(Locs(entries))
  {
    if body.Json? && !MissingSitemapUrl(body) && load(body.sitemapUrl.value).Some? then
      var doc := load(body.sitemapUrl.value).value;
      if doc.sitemapindex.Some? && doc.sitemapindex.value.sitemap.Single? then
        SubSitemaps([doc.sitemapindex.value.sitemap.entry.loc])
      else Post(body, load)
    else Post(body, load)
  }

  /** From the parsed body to the answer: a body that fails to parse, a
      `null` body and a truthy non-string `sitemapUrl` get 500, a falsy one
      400, and a non-empty string is fetched. */
  lemma PostOfParsedBody(parsed: Option<JsonValue>, load: Loader)
    ensures parsed.None? || parsed == Some(JNull) ==> Post(ReadBody(parsed), load) == FetchFailed
    ensures parsed.Some? && parsed.value.JObject? && "sitemapUrl" in parsed.value.fields ==>
      var v := parsed.value.fields["sitemapUrl"];
      && (!Truthy(v) ==> Post(ReadBody(parsed), load) == MissingUrl)
      && (Truthy(v) && !v.JString? ==> Post(ReadBody(parsed), load) == FetchFailed)
      && (Truthy(v) && v.JString? && load(v.s).None? ==> Post(ReadBody(parsed), load) == FetchFailed)
    ensures parsed.Some? && parsed.value != JNull && !(parsed.value.JObject? && "sitemapUrl" in parsed.value.fields)
      ==> Post(ReadBody(parsed), load) == MissingUrl
  {
  }

  /** Validation happens before any fetch: a request without a URL gets the
      same answer whatever the network would have returned. */
  lemma MissingUrlNeverFetches(body: RequestBody, load1: Loader, load2: Loader)
    requires body.Json? && MissingSitemapUrl(body)
    ensures Post(body, load1) == Post(body, load2) == MissingUrl
  {
  }

  /** A valid index lists every entry's `loc` in document order, one per entry,
      with nothing filtered out. */
  lemma EveryEntryListed(url: string, load: Loader, entries: seq<Entry>)
    requires url != ""
    requires load(url).Some? && load(url).value.sitemapindex == Some(SitemapIndex(Many(entries)))
    ensures Post(Json(Some(url)), load) == SubSitemaps(Locs(entries))
    ensures |Post(Json(Some(url)), load).subSitemaps| == |entries|
    ensures forall i :: 0 <= i < |entries| ==> Post(Json(Some(url)), load).subSitemaps[i] == entries[i].loc
  {
  }

  /** As written, an index with exactly one sub-sitemap is answered with a 500
      instead of that one URL. */
  lemma SingleEntryFails(url: string, load: Loader, e: Entry)
    requires url != ""
    requires load(url).Some? && load(url).value.sitemapindex == Some(SitemapIndex(Single(e)))
    ensures Post(Json(Some(url)), load) == FetchFailed
  {
  }

  /** The normalised handler answers the one-entry index with its URL and
      agrees with the written handler on every other request. */
  lemma NormalizedFixesSingleEntry(body: RequestBody, load: Loader)
    ensures body.Json? && !MissingSitemapUrl(body) && load(body.sitemapUrl.value).Some? &&
            load(body.sitemapUrl.value).value.sitemapindex.Some? &&
            load(body.sitemapUrl.value).value.sitemapindex.value.sitemap.Single?
            ==> PostNormalized(body, load) == SubSitemaps([load(body.sitemapUrl.value).value.sitemapindex.value.sitemap.entry.loc])
    ensures !(body.Json? && !MissingSitemapUrl(body) && load(body.sitemapUrl.value).Some? &&
              load(body.sitemapUrl.value).value.sitemapindex.Some? &&
              load(body.sitemapUrl.value).value.sitemapindex.value.sitemap.Single?)
            ==> PostNormalized(body, load) == Post(body, load)
  {
  }
}
