/** `scrapper/index.ts`: the earlier copy of the scraper. It resolves the
    sitemaps and visits every page, with no cancellation flag and no progress
    messages, and it maps `urlset.url` without first checking that it is an
    array. The page inspection and `saveToCSV` are the ones of the current
    copy (`PageInspector`, `Report`). */
module LegacyCrawl {
  import opened Wrappers
  import opened Sitemap
  import opened PageInspector
  import opened Report
  import Crawl

  /** The extraction of the earlier copy: `urlset.url.map(...)`. A single
      `<url>` is parsed into an object, which has no `map`: the call throws. */
  function LegacyExtract(doc: Document): (urls: Option<seq<string>>)
    ensures doc.urlset.None? || doc.urlset.value.url.Absent? ==> urls == Some([])
    ensures doc.urlset.Some? && doc.urlset.value.url.Single? ==> urls.None?
    ensures doc.urlset.Some? && doc.urlset.value.url.Many? ==> urls == Some(Locs(doc.urlset.value.url.entries))
  {
    match doc.urlset
    case None => Some([])
    case Some(urlset) =>
      match urlset.url
      case Absent => Some([])
      case Single(_) => None
      case Many(entries) => Some(Locs(entries))
  }

  /** What `fetchSitemapUrls` returns: every URL in order, or `[]` when any
      fetch, parse or `map` threw. */
  function LegacySitemapUrls(sitemaps: seq<string>, load: Loader): seq<string> {
    Collect(sitemaps, load, LegacyExtract).GetOr([])
  }

  /** `fetchSitemapUrls(sitemaps)` of the earlier copy. */
  method FetchSitemapUrls(sitemaps: seq<string>, load: Loader) returns (allUrls: seq<string>)
    ensures allUrls == LegacySitemapUrls(sitemaps, load)
  {
    allUrls := [];
    for i := 0 to |sitemaps|
      invariant Collect(sitemaps[..i], load, LegacyExtract) == Some(allUrls)
    {
      assert sitemaps[..i + 1][..i] == sitemaps[..i];
      var parsedData := load(sitemaps[i]);
      if parsedData.None? {
        CollectFailsAt(sitemaps, i, load, LegacyExtract);
        return [];
      }
      var urls := LegacyExtract(parsedData.value);
      if urls.None? {
        CollectFailsAt(sitemaps, i, load, LegacyExtract);
        return [];
      }
      allUrls := allUrls + urls.value;
    }
    assert sitemaps[..|sitemaps|] == sitemaps;
  }

  /** How many pages a run hands to the inspector: all of them, or up to and
      including the first one that throws. */
  function VisitedCount(urls: seq<string>, inspect: Inspector): (k: nat)
    ensures k <= |urls|
  {
    var crash := FirstFailure(urls, inspect);
    if crash < |urls| then crash + 1 else crash
  }

  /** The end of a run over `urls`: an escaping inspector exception, or the
      value of `saveToCSV` on every record. */
  function LegacyOutcome(urls: seq<string>, inspect: Inspector, now: nat): Crawl.Outcome {
    if FirstFailure(urls, inspect) < |urls| then Crawl.Threw
    else
      var saved := SaveToCsv(InspectAll(urls, inspect).GetOr([]), now);
      Crawl.Returned(saved.path, saved.file)
  }

  /** `runScraper(selectedSitemaps)` of the earlier copy. */
  method RunScraper(selectedSitemaps: seq<string>, load: Loader, inspect: Inspector, now: nat)
    returns (r: Crawl.Outcome, ghost visited: seq<string>)
    ensures r == LegacyOutcome(LegacySitemapUrls(selectedSitemaps, load), inspect, now)
    ensures var urls := LegacySitemapUrls(selectedSitemaps, load);
            visited == urls[..VisitedCount(urls, inspect)]
  {
    var urls := FetchSitemapUrls(selectedSitemaps, load);
    var allResults: seq<ProductRecord> := [];
    visited := [];
    for i := 0 to |urls|
      invariant visited == urls[..i]
      invariant InspectAll(urls[..i], inspect) == Some(allResults)
    {
      var products := inspect(urls[i]);
      Crawl.PrefixSnoc(urls, i);
      visited := visited + [urls[i]];
      if products.None? {
        Crawl.FirstFailureExtends(urls, inspect, i, |urls|);
        assert urls[..|urls|] == urls;
        return Crawl.Threw, visited;
      }
      Crawl.InspectNext(urls, inspect, i, allResults);
      allResults := allResults + PageRecords(products.value);
    }
    assert urls[..|urls|] == urls;
    InspectAllSucceeds(urls, inspect);
    var saved := SaveToCsv(allResults, now);
    r := Crawl.Returned(saved.path, saved.file);
  }

  /** A sitemap whose `urlset` holds a single `<url>` makes the earlier copy
      throw, so every URL of every selected sitemap is lost. */
  lemma SingleEntryDiscardsAll(sitemaps: seq<string>, j: nat, load: Loader)
    requires j < |sitemaps|
    requires load(sitemaps[j]).Some?
    requires load(sitemaps[j]).value.urlset.Some? && load(sitemaps[j]).value.urlset.value.url.Single?
    ensures LegacySitemapUrls(sitemaps, load) == []
  {
    CollectFailsAt(sitemaps, j, load, LegacyExtract);
  }

  /** No loaded document has a single `<url>`. */
  ghost predicate NoSingleEntries(sitemaps: seq<string>, load: Loader) {
    forall s :: s in sitemaps && load(s).Some? && load(s).value.urlset.Some? ==>
      !load(s).value.urlset.value.url.Single?
  }

  /** Without single-entry sitemaps the two copies resolve the same URLs. */
  lemma {:induction false} SameCollectWithoutSingles(sitemaps: seq<string>, load: Loader)
    requires NoSingleEntries(sitemaps, load)
    ensures Collect(sitemaps, load, LegacyExtract) == Collect(sitemaps, load, Crawl.Extract)
  {
    if sitemaps != [] {
      var init := sitemaps[..|sitemaps| - 1];
      assert forall s :: s in init ==> s in sitemaps;
      SameCollectWithoutSingles(init, load);
      assert sitemaps[|sitemaps| - 1] in sitemaps;
    }
  }

  lemma SameUrlsWithoutSingles(sitemaps: seq<string>, load: Loader)
    requires NoSingleEntries(sitemaps, load)
    ensures LegacySitemapUrls(sitemaps, load) == Crawl.SitemapUrls(sitemaps, load)
  {
    SameCollectWithoutSingles(sitemaps, load);
  }

  /** Over the same URLs, the earlier copy ends as the current one does when
      no cancel request is served, and hands the inspector the same pages. */
  lemma SameRunWithoutCancel(urls: seq<string>, inspect: Inspector, now: nat)
    ensures LegacyOutcome(urls, inspect, now) == Crawl.RunOutcome(urls, inspect, {}, now)
    ensures VisitedCount(urls, inspect) == Crawl.InspectedCount(urls, inspect, {})
  {
    assert Crawl.CancelPoint(urls, {}) == |urls|;
    assert urls[..|urls|] == urls;
  }
}
