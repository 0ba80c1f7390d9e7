# product-card-finder: the crawl pipeline, in Dafny

product-card-finder checks the product listing pages of a web shop for
product cards whose image is missing. The crawl starts from the selected XML
sitemaps and resolves them to page URLs. It renders each page in turn, maps
every product card to a record `(pageUrl, name, imageSrc, isMissing)` and
writes all records to a timestamped CSV report under `public/`. A few Next.js
API routes sit around the crawl:

- `/api/cancel-scraping` raises a process-wide cancellation flag. The crawl
  polls this flag before each page.
- `/api/progress` streams a server-sent event for every progress message the
  crawl publishes. It also keeps a numeric `progress` value.
- `/api/download` serves the newest report.
- `/api/fetch-sitemaps` lists the sub-sitemaps of a sitemap index.

There are two copies of the crawler. `scraper/index.ts` is the current one,
with cancellation and progress. `scrapper/index.ts` is an earlier one
without them.

The model is organised by module:

| module | file | models |
|---|---|---|
| `Wrappers` | wrappers.dfy | `Option` |
| `Decimal` | decimal.dfy | `${n}` for numbers, `replace(/\D/g, "")`, and the values `parseInt(_, 10)` reads |
| `Sitemap` | sitemap.dfy | parsed sitemap documents; the concatenation of the URL lists of several sitemaps, which fails as a whole |
| `PageInspector` | page_inspector.dfy | the per-card mapping of `checkImagesOnPage`, including JavaScript `trim` and the falsy-value fallbacks; inspecting a list of pages |
| `Report` | report.dfy | `saveToCSV` |
| `ScraperControl` | scraper_control.dfy | the cancellation flag, a class with the three operations |
| `CancelScrapingRoute` | cancel_route.dfy | `GET`/`POST` of `/api/cancel-scraping` |
| `ProgressRoute` | progress_route.dfy | `/api/progress`: `sendProgressUpdate`, the stream `start`/`cancel`, and the `progress` value |
| `ProgressUtils` | progress_utils.dfy | `app/api/utils/progress.ts`: a single replaceable subscriber |
| `DownloadRoute` | download.dfy | `/api/download`: the filter, the timestamp parsing, the descending sort, the responses |
| `FetchSitemapsRoute` | fetch_sitemaps.dfy | `/api/fetch-sitemaps` |
| `Crawl` | crawl.dfy | `scraper/index.ts`: `fetchSitemapUrls` and `runScraper` as methods with loops |
| `LegacyCrawl` | legacy_crawl.dfy | `scrapper/index.ts` |

State that the source mutates is modelled as Dafny classes:

- the cancellation flag is `ScraperControl.CancelFlag`;
- the progress route's module state is `ProgressRoute.ProgressState`;
- the progress utility's subscriber is `ProgressUtils.ProgressHub`.

The methods that change the flag, the progress route's state and the hub's
delivery log state their new state through a pure transition function
(`Step`, `Send`, `Open`, `Close`, `Deliver`), and the lemmas are stated about
those functions. Two methods state the new value directly instead:
`ProgressUtils.ProgressHub.SetProgressCallback` (the subscriber becomes the
given one) and `CancelScrapingRoute.Post` (the flag is up).

Foreign code becomes parameters:

- `load: string -> Option<Document>` is axios plus `XMLParser`. `None`
  means the call threw.
- `inspect: string -> Option<PageScan>` is Puppeteer rendering one page. A
  `PageScan` is the final `location.href` plus, for each card, the `src` of
  its first `img` and the text of its name element. `None` means the call
  threw.
- `now` is `Date.now()`.
- A directory listing (`Option<seq<string>>`) stands for `fs.readdirSync`.

A cancel request can only be served while the crawl is suspended at an
`await`. `Crawl.RunScraper` takes the set `cancelServedAt` of suspension
points at which one is served:

- point 0 is the sitemap fetch;
- point `i + 1` is the inspection of page `i`.

At each such point the method calls `CancelScrapingRoute.Post` on the flag.
The flag is the copy in `app/api/cancel-scraping/route.ts`, which is the
copy `scraper/index.ts` imports.

Behaviour worth knowing, as the code has it:

- `/api/fetch-sitemaps` returns every sub-sitemap of the index, unfiltered
  (app/api/fetch-sitemaps/route.ts:25-26).
- One sitemap that cannot be fetched or parsed discards the URLs of every
  selected sitemap, because the `try`/`catch` encloses the whole loop
  (scraper/index.ts:12-34).
- A page whose inspection throws ends the run. The exception escapes
  `runScraper` (`Outcome.Threw`).
- A cancelled run returns `""`, the same value as a run with no records.
- An empty result writes no file and returns `""`.
- The route's `progress` value is not the percentage (see Findings).

## Model

| member | source | states |
|---|---|---|
| Decimal.NatToString | scraper/index.ts:101 | the text of a number is a non-empty digit string without a leading zero (unless it is 0) |
| Decimal.ValueOfNatToString | scraper/index.ts:77 | reading back the digits written for a number gives that number |
| Decimal.Digits | app/api/progress/route.ts:8 | stripping `\D` keeps exactly the digit characters, and no more of them than the input has |
| Decimal.DigitsConcat | app/api/progress/route.ts:8 | stripping non-digits distributes over concatenation |
| Decimal.DigitsOfDigitString | app/api/progress/route.ts:8 | a digit string is unchanged by the stripping |
| Decimal.LeadingDigits | app/api/download/route.ts:16 | `parseInt` reads the longest digit prefix, stopping at the first non-digit |
| Decimal.LeadingDigitsOfDigitString | app/api/download/route.ts:16 | a digit string followed by a non-digit parses as that whole digit string |
| Decimal.ValueConcat | app/api/progress/route.ts:8 | the value of two digit strings written together is the left value shifted by the right length, plus the right value |
| Sitemap.Locs | scraper/index.ts:22 | `entries.map(e => e.loc)` keeps length and order |
| Sitemap.CollectConcat | scraper/index.ts:15-27 | collecting from two lists of sitemaps succeeds iff both parts do, and joins their URLs in selection order |
| Sitemap.CollectOne | scraper/index.ts:16-25 | one sitemap contributes exactly what its fetched document yields, or fails when the fetch does |
| Sitemap.CollectFailsAt | scraper/index.ts:12-34 | any sitemap whose fetch or extraction throws fails the whole collection |
| PageInspector.TrimStart | scraper/index.ts:49 | removes exactly the leading JavaScript white space, and what is left starts with a non-space |
| PageInspector.TrimEnd | scraper/index.ts:49 | removes exactly the trailing JavaScript white space, and what is left ends with a non-space |
| PageInspector.Trim | scraper/index.ts:49 | `trim()` is the slice between the leading and trailing white space; it is empty iff the input is all white space |
| PageInspector.ToRecord | scraper/index.ts:45-57 | a card's record has the page URL. `imageSrc` is the `src` when one is non-empty, otherwise "No Image". `isMissing` holds iff `src` is absent, empty or "No Image". The name is the trimmed text, or "Unknown Product" when that is missing or empty |
| PageInspector.PageRecords | scraper/index.ts:44-58 | one record per card, in DOM order |
| PageInspector.FirstFailure | scraper/index.ts:93-106 | the first page whose inspection throws: every page before it succeeds |
| PageInspector.InspectAllConcat | scraper/index.ts:104-105 | inspecting two URL lists succeeds iff both parts do, and concatenates their records |
| PageInspector.InspectAllSucceeds | scraper/index.ts:104-105 | inspecting a list succeeds iff no page throws |
| PageInspector.FirstFailureIs | scraper/index.ts:104 | the first failure is the unique position before which all pages succeed and at which one throws |
| Report.Row | scraper/index.ts:74 | a record's row has one cell per column, in the fixed column order |
| Report.SaveToCsv | scraper/index.ts:68-82 | empty data gives `""` and writes nothing. Otherwise it writes `missing-images-<now>.csv` under `public/`, with the four columns in order and one row per record, each cell the record's field, and returns that path |
| ScraperControl.CancelFlag.constructor | app/api/cancel-scraping/route.ts:3 | the flag starts down |
| ScraperControl.CancelFlag.CancelScraping | app/api/cancel-scraping/route.ts:5-8 | raises the flag, as `Step` with `Cancel` |
| ScraperControl.CancelFlag.ResetScrapingStatus | app/api/cancel-scraping/route.ts:10-12 | lowers the flag, as `Step` with `Reset` |
| ScraperControl.CancelFlag.IsScrapingStopped | app/api/cancel-scraping/route.ts:14-16 | returns the flag and changes nothing |
| ScraperControl.Step | app/api/utils/scraper-control.ts:4-15 | cancel raises the flag, reset lowers it, a query leaves it |
| ScraperControl.LastWrite | app/api/utils/scraper-control.ts:4-11 | the last writing call is never a query |
| ScraperControl.ReplayIsLastWrite | app/api/utils/scraper-control.ts:2-15 | after any sequence of calls, the flag is up iff the last write was a cancel (or, with no write, the initial flag) |
| ScraperControl.ReplayConcat | app/api/utils/scraper-control.ts:2-15 | replaying two sequences of calls is replaying one after the other |
| ScraperControl.CancelIdempotent | app/api/utils/scraper-control.ts:4-7 | cancelling twice has the effect of cancelling once, whatever comes before or after |
| ScraperControl.QueryChangesNothing | app/api/utils/scraper-control.ts:13-15 | a query can be removed from any sequence of calls without changing the flag |
| CancelScrapingRoute.Get | app/api/cancel-scraping/route.ts:19-21 | reports the current flag with the status message |
| CancelScrapingRoute.Post | app/api/cancel-scraping/route.ts:23-26 | raises the flag whatever it was and acknowledges the cancel |
| ProgressRoute.Send | app/api/progress/route.ts:7-17 | the progress value becomes the message's digits read as a number, or stays as it was when there are none or they read as 0. The subscribed stream gets exactly one frame `data: <message>` appended. No other stream changes, and the callback stays |
| ProgressRoute.Open | app/api/progress/route.ts:24-34 | a new open stream holding the start frame becomes the only subscriber. Existing streams and progress are unchanged |
| ProgressRoute.Close | app/api/progress/route.ts:35-38 | the cancelled stream closes with its frames kept, the callback is cleared, and every other stream is unchanged |
| ProgressRoute.Frames | app/api/progress/route.ts:27 | one frame per message, in order |
| ProgressRoute.ProgressState.constructor | app/api/progress/route.ts:3-4 | progress 0, no callback, no stream |
| ProgressRoute.ProgressState.SendProgressUpdate | app/api/progress/route.ts:7-17 | the new state is `Send` of the old one |
| ProgressRoute.ProgressState.Get | app/api/progress/route.ts:19-48 | opens the next stream number, one past the existing streams; the new state is `Open` of the old one |
| ProgressRoute.ProgressState.CancelStream | app/api/progress/route.ts:35-38 | the new state is `Close` of the old one |
| ProgressRoute.SendAllForwards | app/api/progress/route.ts:10-16 | while a stream is subscribed, a run of updates appends exactly their frames to it, in order, and leaves every other stream and the callback alone |
| ProgressRoute.OpenThenSend | app/api/progress/route.ts:24-34 | a newly opened stream receives the start frame followed by every later message, and earlier streams receive nothing |
| ProgressRoute.ProgressStaysPositive | app/api/progress/route.ts:8 | once `progress` is non-zero it never returns to 0 |
| ProgressRoute.FrameRoundTrip | app/api/progress/route.ts:27 | a message without line breaks is recovered intact from its event-stream frame |
| ProgressRoute.AfterLastOpen | app/api/progress/route.ts:8 | the text after the last `(` is a suffix without `(`, preceded by `(` when shorter than the input |
| ProgressRoute.AfterLastOpenConcat | app/api/progress/route.ts:8 | after an explicit last `(`, the text found is exactly what follows it |
| ProgressUtils.ProgressHub.constructor | app/api/utils/progress.ts:2 | no subscriber, nothing delivered |
| ProgressUtils.ProgressHub.SendProgressUpdate | app/api/utils/progress.ts:5-13 | one delivery of both arguments to the current subscriber, or none without one. The subscriber is unchanged |
| ProgressUtils.ProgressHub.SetProgressCallback | app/api/utils/progress.ts:16-18 | replaces the subscriber and delivers nothing |
| ProgressUtils.DeliveriesConcat | app/api/utils/progress.ts:2-18 | what a later stretch of calls delivers depends only on the subscriber the earlier stretch left |
| ProgressUtils.UpdatesReachSubscriber | app/api/utils/progress.ts:5-13 | with a subscriber set, every update reaches it exactly once, in order, with unchanged arguments |
| ProgressUtils.UpdatesWithoutSubscriber | app/api/utils/progress.ts:6 | with no subscriber, updates deliver nothing |
| ProgressUtils.LatestSubscriberOnly | app/api/utils/progress.ts:16-18 | after a new subscriber is set, later updates go only to it |
| DownloadRoute.Candidates | app/api/download/route.ts:8 | keeps exactly the names starting with `missing-images-` and ending with `.csv` |
| DownloadRoute.CandidatesConcat | app/api/download/route.ts:8 | the filter keeps listing order: filtering a concatenation joins the filtered parts |
| DownloadRoute.CandidatesOne | app/api/download/route.ts:8 | a single name is kept iff it is a report candidate |
| DownloadRoute.Split | app/api/download/route.ts:16 | `split` yields at least one field |
| DownloadRoute.SplitAtSeparator | app/api/download/route.ts:16 | a separator-free head followed by the separator is split off as the first field |
| DownloadRoute.SplitWithoutSeparator | app/api/download/route.ts:16 | a string without the separator splits into itself |
| DownloadRoute.LatestIndex | app/api/download/route.ts:15-19 | picks the first name whose timestamp no other name exceeds |
| DownloadRoute.InsertKeeps | app/api/download/route.ts:15-18 | inserting adds the name and loses nothing (multiset) |
| DownloadRoute.HeadIsNewest | app/api/download/route.ts:15-19 | the head of a newest-first list is at least as new as every name in it |
| DownloadRoute.NewestFirstCons | app/api/download/route.ts:15-18 | a name at least as new as all of a sorted list can go in front of it |
| DownloadRoute.InsertSorted | app/api/download/route.ts:15-18 | inserting into a newest-first list keeps it newest first |
| DownloadRoute.SortIsSortedPermutation | app/api/download/route.ts:15-18 | the descending sort is a permutation of the candidates and is newest first |
| DownloadRoute.SortedHeadIsLatest | app/api/download/route.ts:15-19 | `[0]` of the stable descending sort is the first of the newest candidates |
| DownloadRoute.Get | app/api/download/route.ts:5-34 | 500 iff the directory cannot be read. 404 iff no report name is present. A readable listing with at least one report is always answered with an attachment: it serves, as a `text/csv` attachment named in `Content-Disposition`, a report from the listing whose timestamp no other report exceeds |
| DownloadRoute.PrefixFields | app/api/download/route.ts:16 | the report prefix supplies the first two `-`-separated fields |
| DownloadRoute.TimestampFieldOfName | app/api/download/route.ts:16 | the third field of a report name, cut at `.`, is its digit text |
| DownloadRoute.ReportNameRoundTrip | scraper/index.ts:77 | the name `saveToCSV` writes passes the download filter, and its timestamp reads back as `Date.now()` |
| DownloadRoute.ServesAtLeastLatestWrite | app/api/download/route.ts:8-19 | once a report written at time `now` is in the directory, the route serves a report at least that recent |
| FetchSitemapsRoute.Post | app/api/fetch-sitemaps/route.ts:5-35 | a malformed body gives 500 and a missing or empty `sitemapUrl` gives 400. A failed fetch gives 500, and a missing index or missing entries give 400. A listing means an index with an array of entries, and it is their `loc`s |
| FetchSitemapsRoute.ReadBody | app/api/fetch-sitemaps/route.ts:7-17 | a body that does not parse and a `null` body (whose destructuring throws) are malformed, as is a truthy non-string `sitemapUrl`. A falsy or absent property, or a body of another type, is a missing URL, and a non-empty string is the URL to fetch |
| FetchSitemapsRoute.PostOfParsedBody | app/api/fetch-sitemaps/route.ts:7-17 | from the parsed body: no parse, `null` and a truthy non-string URL get 500, a falsy or absent URL 400, and a string URL whose fetch fails 500 |
| FetchSitemapsRoute.MissingUrlNeverFetches | app/api/fetch-sitemaps/route.ts:10-12 | a request without a URL gets 400 whatever the network would return |
| FetchSitemapsRoute.EveryEntryListed | app/api/fetch-sitemaps/route.ts:26-30 | an index with several entries is listed in full, one `loc` per entry in document order, unfiltered |
| FetchSitemapsRoute.SingleEntryFails | app/api/fetch-sitemaps/route.ts:26 | as written, an index with one entry is answered with 500 |
| FetchSitemapsRoute.PostNormalized | app/api/fetch-sitemaps/route.ts:21-26 | corrected handler: a single entry is listed as a one-element list, and the other shapes are listed or rejected as before |
| FetchSitemapsRoute.NormalizedFixesSingleEntry | app/api/fetch-sitemaps/route.ts:26 | the corrected handler lists the single entry and agrees with the written one on every other request |
| Crawl.DocUrls | scraper/index.ts:20-26 | a document gives no URL without `urlset.url`, the one `loc` of a single entry, or every `loc` of an array, in order |
| Crawl.FetchSitemapUrls | scraper/index.ts:11-35 | returns the concatenated URLs of all selected sitemaps in order, or `[]` when any fetch fails |
| Crawl.FailedSitemapDiscardsAll | scraper/index.ts:12-34 | one sitemap that cannot be fetched empties the whole URL list |
| Crawl.SitemapUrlsConcat | scraper/index.ts:15-27 | selecting more sitemaps appends their URLs in selection order |
| Crawl.PercentRounds | scraper/index.ts:101 | the percentage is `100 (i + 1) / totalPages` rounded to the nearest integer, halves up, and at most 100 |
| Crawl.PercentMonotone | scraper/index.ts:101 | percentages never decrease along a run |
| Crawl.PercentLast | scraper/index.ts:101 | the last page reports exactly 100% |
| Crawl.Messages | scraper/index.ts:101 | the first `k` iterations publish one message each, in iteration order |
| Crawl.FirstServed | scraper/index.ts:94-97 | the first suspension point at which a cancel is served: none is served before it |
| Crawl.InspectedCount | scraper/index.ts:93-106 | a run never inspects more pages than there are |
| Crawl.ServedByNext | scraper/index.ts:94 | the flag is up after suspension point `k + 1` iff it was up before or a cancel is served there |
| Crawl.ServedByAtPoll | scraper/index.ts:94 | the poll of iteration `i` finds the flag up iff `i` is the cancel point |
| Crawl.FirstFailureExtends | scraper/index.ts:104 | a page that throws after pages that succeeded stays the first failure of every longer prefix |
| Crawl.InspectNext | scraper/index.ts:104-105 | inspecting page `i` successfully appends its records to those of the pages before it |
| Crawl.NextMessage | scraper/index.ts:101 | publishing the message of iteration `i` extends the stream by that message |
| Crawl.CancelledAt | scraper/index.ts:94-97 | a run stopped by the poll of iteration `i` inspected `i` pages and returns `""` without writing |
| Crawl.CrashedAt | scraper/index.ts:104 | a run whose page `i` throws inspected `i + 1` pages and throws |
| Crawl.Completed | scraper/index.ts:108-109 | a run that reaches the end inspected every page and returns what `saveToCSV` returns for all records |
| Crawl.RunScraper | scraper/index.ts:85-110 | resets the flag and resolves the URLs, then visits them in order until a served cancel or a throwing page. `visited` is exactly the pages handed to the inspector. The stream receives one progress message per visited page, in order. The result is the run's outcome, and the flag ends up iff a cancel was served by the last suspension point reached |
| Crawl.DigitsOfScraperMessage | scraper/index.ts:101 | the digits of a progress message are its three numbers written one after the other |
| Crawl.ThreeNumbersExceedHundred | app/api/progress/route.ts:8 | three numbers written together, the first two non-zero, read as one number exceed 100 |
| Crawl.ScraperMessageProgress | app/api/progress/route.ts:8 | as written, the progress value of each scraper message is the counter, total and percentage read as one number, always above 100 |
| Crawl.ThirdOfTenPages | app/api/progress/route.ts:8 | page 3 of 10 reports 30%, and its progress value becomes 31030 |
| Crawl.ScraperMessagePercent | app/api/progress/route.ts:8 | read as intended, the progress value of each scraper message is its percentage |
| Crawl.NoPagesReturnsEmpty | scraper/index.ts:93-109 | a run over no URLs inspects nothing and returns `""` without writing |
| Crawl.CancelLooksLikeNoPages | scraper/index.ts:94-97 | a cancelled run returns the same value as a run over no URLs |
| Crawl.CancelDuringFetch | scraper/index.ts:87-97 | a cancel served while sitemaps are fetched stops the run before its first page |
| Crawl.CompleteRunEndsAtHundred | scraper/index.ts:93-104 | a run that reaches the last page (the count RunScraper reports) adds one frame per page to the subscribed stream, and its last frame is the last page's message, which reports 100% |
| LegacyCrawl.LegacyExtract | scrapper/index.ts:18-21 | an array of entries gives their `loc`s and an absent `urlset.url` gives none. A single entry makes `.map` throw |
| LegacyCrawl.FetchSitemapUrls | scrapper/index.ts:9-30 | returns the concatenated URLs, or `[]` when any fetch, parse or `.map` throws |
| LegacyCrawl.VisitedCount | scrapper/index.ts:86-89 | never more pages than there are |
| LegacyCrawl.RunScraper | scrapper/index.ts:80-93 | visits every page in order up to and including the first that throws. The result is that exception or `saveToCSV` of every record |
| LegacyCrawl.SingleEntryDiscardsAll | scrapper/index.ts:19 | one sitemap with a single `<url>` empties the URL list of every selected sitemap |
| LegacyCrawl.SameCollectWithoutSingles | scrapper/index.ts:13-22 | without single-entry sitemaps the two copies collect the same URLs |
| LegacyCrawl.SameUrlsWithoutSingles | scrapper/index.ts:9-30 | without single-entry sitemaps the two `fetchSitemapUrls` agree |
| LegacyCrawl.SameRunWithoutCancel | scrapper/index.ts:80-93 | over the same URLs, the earlier crawl ends as the current one does with no cancel served, after inspecting the same pages |
| Decimal.Value | app/api/progress/route.ts:8 | the decimal value of a digit string, as `parseInt(_, 10)` reads it; pinned down by ValueOfNatToString and ValueConcat |
| Sitemap.Collect | scraper/index.ts:12-34 | the URL lists of the selected sitemaps, fetched in order and concatenated, or a failure as soon as one fetch or extraction throws; pinned down by CollectConcat, CollectOne and CollectFailsAt |
| PageInspector.OrElse | scraper/index.ts:47-49 | JavaScript's fallback to a default for a null, undefined or empty string; its cases are stated in ToRecord |
| PageInspector.InspectAll | scraper/index.ts:99-106 | the records of every page in URL order, or a failure when one inspection throws; pinned down by InspectAllConcat and InspectAllSucceeds |
| Report.ReportName | scraper/index.ts:77 | `missing-images-<Date.now()>.csv`; ReportNameRoundTrip shows the download route reads the time back out of it |
| Report.Cell | scraper/index.ts:74 | the value the CSV writer takes from a record for one of the four fields |
| ScraperControl.Replay | app/api/utils/scraper-control.ts:2-15 | the flag after a sequence of calls; ReplayIsLastWrite and ReplayConcat pin it down |
| ProgressRoute.Frame | app/api/progress/route.ts:27 | one `data:` event carrying the message; FrameRoundTrip shows a message without line breaks reads back intact |
| ProgressRoute.NextProgress | app/api/progress/route.ts:8 | the next `progress`: every digit of the message read as one number, or the old value when there is no digit or they read as 0. ProgressStaysPositive, ScraperMessageProgress and ThirdOfTenPages state its consequences |
| ProgressRoute.SendAll | app/api/progress/route.ts:7-17 | several `sendProgressUpdate` calls in order, keeping the callback and the number of streams; SendAllForwards and OpenThenSend state what they do to the streams |
| ProgressRoute.PercentProgress | app/api/progress/route.ts:8 | corrected reading of the progress value: the number in the message's last parenthesised part. ScraperMessagePercent proves it is each scraper message's percentage |
| ProgressUtils.Deliver | app/api/utils/progress.ts:5-13 | the calls one update makes: one to the subscriber, or none |
| ProgressUtils.CallbackAfter | app/api/utils/progress.ts:16-18 | the subscriber after a sequence of calls; DeliveriesConcat and LatestSubscriberOnly pin it down |
| ProgressUtils.Deliveries | app/api/utils/progress.ts:2-18 | every call a sequence of updates and replacements makes to subscribers; pinned down by UpdatesReachSubscriber, UpdatesWithoutSubscriber and LatestSubscriberOnly |
| DownloadRoute.Timestamp | app/api/download/route.ts:16-17 | the number `parseInt` reads from the third `-` field cut at `.`; TimestampFieldOfName and ReportNameRoundTrip show it is the write time for every name `saveToCSV` produces |
| DownloadRoute.Key | app/api/download/route.ts:16-18 | the comparator's key: the timestamp, defined for every candidate of a well-formed listing |
| DownloadRoute.Insert | app/api/download/route.ts:15-18 | stable insertion into a newest-first list; InsertKeeps and InsertSorted pin it down |
| DownloadRoute.SortNewestFirst | app/api/download/route.ts:15-18 | the descending sort; SortIsSortedPermutation and SortedHeadIsLatest pin it down |
| DownloadRoute.Latest | app/api/download/route.ts:15-19 | `[0]` of the sorted list, as SortedHeadIsLatest proves |
| Crawl.Extract | scraper/index.ts:20-26 | the extraction of this copy never throws: it yields DocUrls |
| Crawl.SitemapUrls | scraper/index.ts:11-35 | the value of `fetchSitemapUrls`: every URL in order, or `[]` after any failure; FetchSitemapUrls is proved equal to it, and FailedSitemapDiscardsAll and SitemapUrlsConcat state its properties |
| Crawl.Percent | scraper/index.ts:101 | `Math.round((i + 1) / totalPages * 100)`; PercentRounds, PercentMonotone and PercentLast pin it down |
| Crawl.ProgressMessage | scraper/index.ts:101 | the message sent before page `i`; DigitsOfScraperMessage and ScraperMessagePercent state what the progress route reads from it |
| Crawl.CancelPoint | scraper/index.ts:93-97 | the iteration whose poll finds the flag up, or the page count when none does (FirstServed) |
| Crawl.CrashPoint | scraper/index.ts:104 | the first page before the cancel point whose inspection throws (FirstFailure) |
| Crawl.RunOutcome | scraper/index.ts:93-109 | how a run ends: a throw, `""` after a cancel, or the value of `saveToCSV`. CancelledAt, CrashedAt, Completed, NoPagesReturnsEmpty, CancelLooksLikeNoPages and CancelDuringFetch pin it down, and RunScraper is proved to return it |
| LegacyCrawl.LegacySitemapUrls | scrapper/index.ts:9-30 | the value of the earlier `fetchSitemapUrls`; its FetchSitemapUrls is proved equal to it, and SingleEntryDiscardsAll and SameUrlsWithoutSingles state its properties |
| LegacyCrawl.LegacyOutcome | scrapper/index.ts:80-93 | how an earlier run ends: a throw or the value of `saveToCSV`; SameRunWithoutCancel ties it to Crawl.RunOutcome |

## Left out

- Puppeteer (browser launch, navigation, the DOM query) is the `inspect`
  parameter. A `PageScan` is what the page's `map` callback reads. Which
  elements match the selectors is not modelled.
- axios and `fast-xml-parser` are the `load` parameter. Parsing is
  represented by the `Document` shapes it can produce. Entries without a
  `loc`, and roots that parse to other truthy non-object values, are not
  modelled.
- json2csv quoting and escaping: `Report.CsvFile` holds the header and the
  cells handed to the writer, not the text.
- The file system, `process.cwd()` and `Date.now()`: the written file is the
  `Saved.file` value, the returned path is `public/<name>` relative to the
  working directory (the `process.cwd()` prefix is dropped), and `now` is a
  parameter. Reading the newest file back as a stream is not modelled.
- Crawl.Percent: the source computes `Math.round` in floating point. The
  model rounds the exact fraction, halves up, so it differs from the
  floating-point result where the double falls just below a half: page 23
  of 40 computes `23 / 40 * 100` as 57.49999999999999, so JavaScript
  reports 57 and the model 58 (page 29 of 200 likewise gives 14 against 15).
- DownloadRoute.Get: requires every report candidate's timestamp field to
  start with a digit. A name like `missing-images-x.csv` gives `NaN` in the
  comparator, where JavaScript's sort order is implementation-defined. A
  field that `parseInt` still reads after leading white space or a sign
  (`missing-images- 17.csv`) is excluded too. The integer precision
  limit of `parseInt` is not modelled.
- ProgressRoute.NextProgress: reads the digit string as an unbounded
  integer. Above 2^53 JavaScript loses precision, and past about 309 digits
  `parseInt` returns `Infinity`, which is truthy, so `progress` becomes
  `Infinity` where the model keeps the exact number.
- The HTTP and SSE transport (`Response`, headers, `TextEncoder`,
  `ReadableStream`) is not modelled. `enqueue` on a closed controller never
  happens in the model, because `cancel` clears the callback first, so its
  `try`/`catch` is not modelled.
- Exceptions thrown by a subscriber in `app/api/utils/progress.ts` are
  swallowed by the source. The model records the delivery and carries on.
- Concurrency: only cancel requests served at suspension points are
  modelled. Overlapping `runScraper` calls and progress streams opened
  during a run are not.
- The `details` field of the 500 response of `/api/fetch-sitemaps` is not
  modelled. `FetchSitemapsRoute.ReadBody` takes a truthy `sitemapUrl` that
  is not a string (`5`, `true`, `{}`) to make `axios.get` reject, which
  ends in the 500 of the `catch`; what axios does with such a URL is not
  modelled further.
- The start-scraping routes, the UI component, `scrapper-test.ts` and
  `app/page.tsx` are not part of this model.
- Console logging is not modelled.

## Findings

| source | as written | input that shows it | evidently intended | confidence | as-written member | corrected member |
|---|---|---|---|---|---|---|
| app/api/progress/route.ts:8 | `progress` is every digit of the message read as one number | "Scraping 3/10 pages... (30%)" sets `progress` to 31030; every scraper message gives a value above 100 | `progress` is the percentage in the message (30) | medium, not executed | Crawl.ScraperMessageProgress | Crawl.ScraperMessagePercent |
| app/api/fetch-sitemaps/route.ts:26 | `.map` on `sitemapindex.sitemap`, which the parser makes an object when there is one entry | a sitemap index with exactly one `<sitemap>` entry gets a 500 | the one sub-sitemap is listed, as scraper/index.ts:21-23 does for `<url>` | high, not executed | FetchSitemapsRoute.SingleEntryFails | FetchSitemapsRoute.NormalizedFixesSingleEntry |
| scrapper/index.ts:19 | `.map` on `urlset.url`, an object for a single `<url>` | one selected sitemap with a single `<url>` makes the crawl lose every URL of every sitemap | a single `<url>` contributes its one `loc` (as fixed in scraper/index.ts:21-23) | high, not executed | LegacyCrawl.SingleEntryDiscardsAll | Crawl.DocUrls |
