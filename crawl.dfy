/** `scraper/index.ts`: resolve the selected sitemaps to page URLs, then visit
    the pages one at a time, polling the cancellation flag and publishing a
    progress message before each page, and save the records of every page.

    Foreign calls are inputs: `load` fetches and parses one sitemap, `inspect`
    renders one page, `now` is `Date.now()`. Cancel requests arrive while the
    crawl is suspended on an `await`; `cancelServedAt` names the suspension
    points at which the server handles a `POST /api/cancel-scraping`: point 0
    is the sitemap fetch, point `i + 1` the inspection of page `i`. */
module Crawl {
  import opened Wrappers
  import opened Decimal
  import opened Sitemap
  import opened PageInspector
  import opened Report
  import opened ScraperControl
  import CancelScrapingRoute
  import opened ProgressRoute

  /** The URLs of one parsed document: nothing without `urlset.url`, the one
      `loc` of a single object, every `loc` of an array, in document order. */
  function DocUrls(doc: Document): (urls: seq<string>)
    ensures doc.urlset.None? || doc.urlset.value.url.Absent? ==> urls == []
    ensures doc.urlset.Some? && doc.urlset.value.url.Single? ==> urls == [doc.urlset.value.url.entry.loc]
    ensures doc.urlset.Some? && doc.urlset.value.url.Many? ==> urls == Locs(doc.urlset.value.url.entries)
  {
    match doc.urlset
    case None => []
    case Some(urlset) =>
      match urlset.url
      case Absent => []
      case Single(entry) => [entry.loc]
      case Many(entries) => Locs(entries)
  }

  /** Extraction never throws in this version. */
  function Extract(doc: Document): Option<seq<string>> {
    Some(DocUrls(doc))
  }

  /** What `fetchSitemapUrls` returns: every URL in order, or `[]` when any
      fetch or parse threw. */
  function SitemapUrls(sitemaps: seq<string>, load: Loader): seq<string> {
    Collect(sitemaps, load, Extract).GetOr([])
  }

  /** `fetchSitemapUrls(sitemaps)` */
  method FetchSitemapUrls(sitemaps: seq<string>, load: Loader) returns (allUrls: seq<string>)
    ensures allUrls == SitemapUrls(sitemaps, load)
  {
    allUrls := [];
    for i := 0 to |sitemaps|
      invariant Collect(sitemaps[..i], load, Extract) == Some(allUrls)
    {
      assert sitemaps[..i + 1][..i] == sitemaps[..i];
      var parsedData := load(sitemaps[i]);
      if parsedData.None? {
        CollectFailsAt(sitemaps, i, load, Extract);
        return [];
      }
      allUrls := allUrls + DocUrls(parsedData.value);
    }
    assert sitemaps[..|sitemaps|] == sitemaps;
  }

  /** `Math.round((i + 1) / totalPages * 100)`, in integer arithmetic. */
  function Percent(i: nat, totalPages: nat): (p: nat)
    requires i < totalPages
  {
    (200 * (i + 1) + totalPages) / (2 * totalPages)
  }

  lemma MulMonotone(d: nat, a: nat, b: nat)
    requires a <= b
    ensures d * a <= d * b
  {
    assert d * b == d * a + d * (b - a);
  }

  lemma MulCancel(d: nat, a: nat, b: nat)
    requires d * a < d * b
    ensures a < b
  {
    if b <= a {
      MulMonotone(d, b, a);
      assert false;
    }
  }

  /** `x / d` is the one `q` with `d * q <= x < d * (q + 1)`. */
  lemma DivIsUnique(x: nat, d: nat, q: nat)
    requires d > 0 && d * q <= x < d * q + d
    ensures x / d == q
  {
    var p := x / d;
    assert d * p <= x < d * p + d;
    assert d * (q + 1) == d * q + d && d * (p + 1) == d * p + d;
    MulCancel(d, q, p + 1);
    MulCancel(d, p, q + 1);
  }

  /** Division by a positive number keeps the order of its dividends. */
  lemma DivMonotone(x: nat, y: nat, d: nat)
    requires d > 0 && x <= y
    ensures x / d <= y / d
  {
    var p, q := x / d, y / d;
    assert d * p <= x && y < d * q + d;
    assert d * (q + 1) == d * q + d;
    MulCancel(d, p, q + 1);
  }

  /** The percentage is the nearest integer to `100 (i + 1) / totalPages`,
      halves rounded up, and lies between 0 and 100. */
  lemma PercentRounds(i: nat, totalPages: nat)
    requires i < totalPages
    ensures var p := Percent(i, totalPages);
            && totalPages * (2 * p) <= 200 * (i + 1) + totalPages < totalPages * (2 * p + 2)
            && p <= 100
  {
    var x, d := 200 * (i + 1) + totalPages, 2 * totalPages;
    var p := x / d;
    assert d * p <= x < d * p + d;
    assert totalPages * (2 * p) == d * p;
    assert totalPages * (2 * p + 2) == d * p + d;
    DivMonotone(x, 201 * totalPages, d);
    DivIsUnique(201 * totalPages, d, 100);
  }

  /** The message sent before inspecting page `i`. */
  function ProgressMessage(i: nat, totalPages: nat): string
    requires i < totalPages
  {
    "Scraping " + NatToString(i + 1) + "/" + NatToString(totalPages)
      + " pages... (" + NatToString(Percent(i, totalPages)) + "%)"
  }

  /** The messages of the first `k` iterations, in order. */
  function Messages(k: nat, totalPages: nat): (ms: seq<string>)
    requires k <= totalPages
    ensures |ms| == k
    ensures forall i :: 0 <= i < k ==> ms[i] == ProgressMessage(i, totalPages)
  {
    if k == 0 then [] else Messages(k - 1, totalPages) + [ProgressMessage(k - 1, totalPages)]
  }

  /** The first suspension point in `from..n` at which a cancel is served, or `n`. */
  function FirstServed(cancelServedAt: set<nat>, from: nat, n: nat): (p: nat)
    requires from <= n
    ensures from <= p <= n
    ensures forall q :: from <= q < p ==> q !in cancelServedAt
    ensures p < n ==> p in cancelServedAt
    decreases n - from
  {
    if from == n || from in cancelServedAt then from else FirstServed(cancelServedAt, from + 1, n)
  }

  /** The iteration whose poll finds the flag up, or `|urls|` when none does. */
  function CancelPoint(urls: seq<string>, cancelServedAt: set<nat>): nat {
    FirstServed(cancelServedAt, 0, |urls|)
  }

  /** The page, before the cancel point, whose inspection throws; the cancel
      point when none does. */
  function CrashPoint(urls: seq<string>, inspect: Inspector, cancelServedAt: set<nat>): nat {
    FirstFailure(urls[..CancelPoint(urls, cancelServedAt)], inspect)
  }

  /** How many pages the run hands to the inspector. */
  function InspectedCount(urls: seq<string>, inspect: Inspector, cancelServedAt: set<nat>): (k: nat)
    ensures k <= |urls|
  {
    var stop := CancelPoint(urls, cancelServedAt);
    var crash := CrashPoint(urls, inspect, cancelServedAt);
    if crash < stop then crash + 1 else stop
  }

  /** How a run ends: it returns a string (and may have written a report), or
      an exception from the page inspector escapes it. */
  datatype Outcome = Returned(value: string, written: Option<CsvFile>) | Threw

  /** The end of a run over `urls`. */
  function RunOutcome(urls: seq<string>, inspect: Inspector, cancelServedAt: set<nat>, now: nat): Outcome {
    var stop := CancelPoint(urls, cancelServedAt);
    if CrashPoint(urls, inspect, cancelServedAt) < stop then Threw
    else if stop < |urls| then Returned("", None)
    else
      var saved := SaveToCsv(InspectAll(urls, inspect).GetOr([]), now);
      Returned(saved.path, saved.file)
  }

  /** Some cancel has been served at a suspension point up to `k`. */
  ghost predicate ServedBy(cancelServedAt: set<nat>, k: nat) {
    exists p :: p in cancelServedAt && p <= k
  }

  lemma ServedByNext(cancelServedAt: set<nat>, k: nat)
    ensures ServedBy(cancelServedAt, k + 1) <==> ServedBy(cancelServedAt, k) || k + 1 in cancelServedAt
  {
    if ServedBy(cancelServedAt, k + 1) && !(k + 1 in cancelServedAt) {
      var p :| p in cancelServedAt && p <= k + 1;
      assert p <= k;
    }
  }

  /** Before the cancel point the flag is down when polled; at it, up. */
  lemma ServedByAtPoll(cancelServedAt: set<nat>, i: nat, n: nat)
    requires i < n && i <= FirstServed(cancelServedAt, 0, n)
    ensures ServedBy(cancelServedAt, i) <==> i == FirstServed(cancelServedAt, 0, n)
  {
    if ServedBy(cancelServedAt, i) {
      var p :| p in cancelServedAt && p <= i;
    }
  }

  /** A page that throws after pages that all succeeded is the first failure of
      every longer prefix. */
  lemma FirstFailureExtends(urls: seq<string>, inspect: Inspector, i: nat, m: nat)
    requires i < m <= |urls|
    requires InspectAll(urls[..i], inspect).Some?
    requires inspect(urls[i]).None?
    ensures FirstFailure(urls[..m], inspect) == i
  {
    InspectAllSucceeds(urls[..i], inspect);
    assert forall j :: 0 <= j < i ==> urls[..i][j] == urls[..m][j];
    FirstFailureIs(urls[..m], inspect, i);
  }

  lemma PrefixSnoc<T>(s: seq<T>, i: nat)
    requires i < |s|
    ensures s[..i + 1] == s[..i] + [s[i]]
  {
  }

  /** Inspecting page `i` successfully extends the records of the pages before it. */
  lemma InspectNext(urls: seq<string>, inspect: Inspector, i: nat, results: seq<ProductRecord>)
    requires i < |urls| && InspectAll(urls[..i], inspect) == Some(results)
    requires inspect(urls[i]).Some?
    ensures InspectAll(urls[..i + 1], inspect) == Some(results + PageRecords(inspect(urls[i]).value))
  {
    assert urls[..i + 1][..i] == urls[..i];
  }

  /** Publishing the message of iteration `i` extends the stream by one frame. */
  lemma NextMessage(c: Channel, i: nat, totalPages: nat)
    requires Valid(c) && i < totalPages
    ensures SendAll(c, Messages(i + 1, totalPages)) ==
      Send(SendAll(c, Messages(i, totalPages)), ProgressMessage(i, totalPages))
  {
    SendAllSnoc(c, Messages(i, totalPages), ProgressMessage(i, totalPages));
  }

  /** The run is cancelled at the poll of iteration `i`. */
  lemma CancelledAt(urls: seq<string>, inspect: Inspector, cancelServedAt: set<nat>, now: nat, i: nat)
    requires i < |urls| && i == CancelPoint(urls, cancelServedAt)
    requires InspectAll(urls[..i], inspect).Some?
    ensures InspectedCount(urls, inspect, cancelServedAt) == i
    ensures RunOutcome(urls, inspect, cancelServedAt, now) == Returned("", None)
  {
    InspectAllSucceeds(urls[..i], inspect);
  }

  /** The run ends with the exception of page `i`. */
  lemma CrashedAt(urls: seq<string>, inspect: Inspector, cancelServedAt: set<nat>, now: nat, i: nat)
    requires i < CancelPoint(urls, cancelServedAt)
    requires InspectAll(urls[..i], inspect).Some? && inspect(urls[i]).None?
    ensures InspectedCount(urls, inspect, cancelServedAt) == i + 1
    ensures RunOutcome(urls, inspect, cancelServedAt, now) == Threw
  {
    FirstFailureExtends(urls, inspect, i, CancelPoint(urls, cancelServedAt));
  }

  /** The run goes through every page. */
  lemma Completed(urls: seq<string>, inspect: Inspector, cancelServedAt: set<nat>, now: nat, results: seq<ProductRecord>)
    requires CancelPoint(urls, cancelServedAt) == |urls|
    requires InspectAll(urls, inspect) == Some(results)
    ensures InspectedCount(urls, inspect, cancelServedAt) == |urls|
    ensures RunOutcome(urls, inspect, cancelServedAt, now) ==
      Returned(SaveToCsv(results, now).path, SaveToCsv(results, now).file)
  {
    InspectAllSucceeds(urls, inspect);
    assert urls[..|urls|] == urls;
  }

  /** `runScraper(selectedSitemaps)`. `visited` lists the URLs handed to the
      page inspector, in order. */
  method RunScraper(selectedSitemaps: seq<string>, load: Loader, inspect: Inspector,
                    cancelServedAt: set<nat>, now: nat,
                    flag: CancelFlag, channel: ProgressState)
    returns (r: Outcome, ghost visited: seq<string>)
    requires Valid(channel.State())
    modifies flag, channel
    ensures var urls := SitemapUrls(selectedSitemaps, load);
            var k := InspectedCount(urls, inspect, cancelServedAt);
            && visited == urls[..k]
            && r == RunOutcome(urls, inspect, cancelServedAt, now)
            && Valid(channel.State())
            && channel.State() == SendAll(old(channel.State()), Messages(k, |urls|))
            && flag.isScrapingCanceled == ServedBy(cancelServedAt, k)
  {
    ghost var initial := channel.State();
    flag.ResetScrapingStatus();
    var urls := FetchSitemapUrls(selectedSitemaps, load);
    if 0 in cancelServedAt {
      var _ := CancelScrapingRoute.Post(flag);
    }
    var allResults: seq<ProductRecord> := [];
    var totalPages := |urls|;
    ghost var stop := CancelPoint(urls, cancelServedAt);
    visited := [];
    for i := 0 to totalPages
      invariant visited == urls[..i]
      invariant i <= stop
      invariant InspectAll(urls[..i], inspect) == Some(allResults)
      invariant flag.isScrapingCanceled == ServedBy(cancelServedAt, i)
      invariant Valid(channel.State())
      invariant channel.State() == SendAll(initial, Messages(i, totalPages))
    {
      ServedByAtPoll(cancelServedAt, i, totalPages);
      var stopped := flag.IsScrapingStopped();
      if stopped {
        CancelledAt(urls, inspect, cancelServedAt, now, i);
        return Returned("", None), visited;
      }
      NextMessage(initial, i, totalPages);
      channel.SendProgressUpdate(ProgressMessage(i, totalPages));
      var products := inspect(urls[i]);
      if i + 1 in cancelServedAt {
        var _ := CancelScrapingRoute.Post(flag);
      }
      PrefixSnoc(urls, i);
      visited := visited + [urls[i]];
      ServedByNext(cancelServedAt, i);
      if products.None? {
        CrashedAt(urls, inspect, cancelServedAt, now, i);
        return Threw, visited;
      }
      InspectNext(urls, inspect, i, allResults);
      allResults := allResults + PageRecords(products.value);
    }
    assert urls[..totalPages] == urls;
    Completed(urls, inspect, cancelServedAt, now, allResults);
    var saved := SaveToCsv(allResults, now);
    r := Returned(saved.path, saved.file);
  }

  /** The percentages of one run never decrease. */
  lemma PercentMonotone(i: nat, j: nat, totalPages: nat)
    requires i <= j < totalPages
    ensures Percent(i, totalPages) <= Percent(j, totalPages)
  {
    DivMonotone(200 * (i + 1) + totalPages, 200 * (j + 1) + totalPages, 2 * totalPages);
  }

  /** The message of the last page reports exactly 100%. */
  lemma PercentLast(totalPages: nat)
    requires totalPages > 0
    ensures Percent(totalPages - 1, totalPages) == 100
  {
    DivIsUnique(200 * totalPages + totalPages, 2 * totalPages, 100);
  }

  /** Appending a digit-free text keeps the digits. */
  lemma DigitsThenText(s: string, text: string, digits: string)
    requires Digits(s) == digits && Digits(text) == []
    ensures Digits(s + text) == digits
  {
    DigitsConcat(s, text);
  }

  /** Appending a digit string appends it to the digits. */
  lemma DigitsThenNumber(s: string, number: string, digits: string)
    requires Digits(s) == digits && AllDigits(number)
    ensures Digits(s + number) == digits + number
  {
    DigitsConcat(s, number);
    DigitsOfDigitString(number);
  }

  /** The fixed parts of a scraper message hold no digit. */
  lemma ScrapingTextHasNoDigits() ensures Digits("Scraping ") == [] {}
  lemma SlashHasNoDigits() ensures Digits("/") == [] {}
  lemma PagesTextHasNoDigits() ensures Digits(" pages... (") == [] {}
  lemma PercentSignHasNoDigits() ensures Digits("%)") == [] {}

  /** The digits of a scraper message are its three numbers, in order. */
  lemma DigitsOfScraperMessage(i: nat, totalPages: nat)
    requires i < totalPages
    ensures Digits(ProgressMessage(i, totalPages))
            == NatToString(i + 1) + NatToString(totalPages) + NatToString(Percent(i, totalPages))
  {
    var a, b, c := NatToString(i + 1), NatToString(totalPages), NatToString(Percent(i, totalPages));
    ScrapingTextHasNoDigits();
    SlashHasNoDigits();
    PagesTextHasNoDigits();
    PercentSignHasNoDigits();
    var s1 := "Scraping " + a;
    DigitsThenNumber("Scraping ", a, []);
    assert [] + a == a;
    var s2 := s1 + "/";
    DigitsThenText(s1, "/", a);
    var s3 := s2 + b;
    DigitsThenNumber(s2, b, a);
    var s4 := s3 + " pages... (";
    DigitsThenText(s3, " pages... (", a + b);
    var s5 := s4 + c;
    DigitsThenNumber(s4, c, a + b);
    DigitsThenText(s5, "%)", a + b + c);
    assert ProgressMessage(i, totalPages) == s5 + "%)";
  }

  /** A decimal number of at least one digit followed by `n` digits is at least `10^n`. */
  lemma ValueAfterLeader(a: string, b: string)
    requires AllDigits(a) && AllDigits(b) && Value(a) >= 1
    ensures Value(a + b) >= Pow10(|b|)
  {
    var va: int, p: int := Value(a), Pow10(|b|);
    ValueConcat(a, b);
    MulMonotone(p, 1, va);
    assert va * p >= p;
  }

  /** Three numbers written one after the other, the first two non-zero,
      read as one number, exceed 100. */
  lemma ThreeNumbersExceedHundred(a: string, b: string, c: string)
    requires AllDigits(a) && AllDigits(b) && AllDigits(c)
    requires Value(a) >= 1 && Value(b) >= 1 && |c| >= 1
    ensures Value(a + b + c) > 100
  {
    assert a + b + c == a + (b + c);
    assert |b| >= 1;
    ValueAfterLeader(b, c);
    ValueConcat(a, b + c);
    Pow10AtLeastHundred(|b + c|);
    ShiftedExceedsHundred(Value(a), Pow10(|b + c|), Value(b + c));
  }

  lemma Pow10AtLeastHundred(k: nat)
    requires k >= 2
    ensures Pow10(k) >= 100
  {
    assert Pow10(k) == 100 * Pow10(k - 2);
  }

  /** A non-zero number shifted by at least two places, plus a non-zero tail. */
  lemma ShiftedExceedsHundred(v: nat, p: nat, tail: nat)
    requires v >= 1 && p >= 100 && tail >= 1
    ensures v * p + tail > 100
  {
    MulMonotone(p, 1, v);
  }

  /** What `sendProgressUpdate` makes of a scraper message: the counter, the
      total and the percentage written one after the other, read as one number,
      which is always above 100. */
  lemma ScraperMessageProgress(progress: nat, i: nat, totalPages: nat)
    requires i < totalPages
    ensures var digits := NatToString(i + 1) + NatToString(totalPages) + NatToString(Percent(i, totalPages));
            NextProgress(progress, ProgressMessage(i, totalPages)) == Value(digits) > 100
  {
    var a, b, c := NatToString(i + 1), NatToString(totalPages), NatToString(Percent(i, totalPages));
    DigitsOfScraperMessage(i, totalPages);
    ValueOfNatToString(i + 1);
    ValueOfNatToString(totalPages);
    ThreeNumbersExceedHundred(a, b, c);
  }

  /** Page 3 of 10: the message "Scraping 3/10 pages... (30%)" reports 30%,
      and the progress value becomes 31030. */
  lemma ThirdOfTenPages()
    ensures Percent(2, 10) == 30
    ensures NextProgress(0, ProgressMessage(2, 10)) == 31030
  {
    ThirdOfTenPercent();
    ScraperMessageProgress(0, 2, 10);
    ThirdOfTenDigitsValue();
  }

  lemma ThirdOfTenPercent()
    ensures Percent(2, 10) == 30
  {
    DivIsUnique(610, 20, 30);
  }

  lemma TwoDigitNumbers()
    ensures |NatToString(10)| == 2 && |NatToString(30)| == 2
  {
  }

  /** The digits "3", "10" and "30" written together read as 31030. */
  lemma ThirdOfTenDigitsValue()
    ensures Value(NatToString(3) + NatToString(10) + NatToString(30)) == 31030
  {
    var a, b, c := NatToString(3), NatToString(10), NatToString(30);
    TwoDigitNumbers();
    ValueOfNatToString(3);
    ValueOfNatToString(10);
    ValueOfNatToString(30);
    assert Pow10(2) == 100;
    ValueConcat(a, b);
    ValueConcat(a + b, c);
  }

  /** Read as intended, each scraper message carries its percentage. */
  lemma ScraperMessagePercent(progress: nat, i: nat, totalPages: nat)
    requires i < totalPages
    ensures PercentProgress(progress, ProgressMessage(i, totalPages)) == Percent(i, totalPages)
  {
    var a, b, c := NatToString(i + 1), NatToString(totalPages), NatToString(Percent(i, totalPages));
    var head := "Scraping " + a + "/" + b + " pages... (";
    assert head[|head| - 1] == '(';
    assert ProgressMessage(i, totalPages) == head + (c + "%)");
    AfterLastOpenConcat(head, c + "%)");
    DigitsConcat(c, "%)");
    PercentSignHasNoDigits();
    DigitsOfDigitString(c);
    assert c + [] == c;
    assert Digits(AfterLastOpen(ProgressMessage(i, totalPages))) == c;
    ValueOfNatToString(Percent(i, totalPages));
  }

  /** One sitemap that cannot be fetched or parsed empties the URL list:
      the whole crawl then visits nothing. */
  lemma FailedSitemapDiscardsAll(sitemaps: seq<string>, j: nat, load: Loader)
    requires j < |sitemaps| && load(sitemaps[j]).None?
    ensures SitemapUrls(sitemaps, load) == []
  {
    CollectFailsAt(sitemaps, j, load, Extract);
  }

  /** Selecting more sitemaps appends their URLs, in selection order. */
  lemma SitemapUrlsConcat(a: seq<string>, b: seq<string>, load: Loader)
    requires Collect(a, load, Extract).Some? && Collect(b, load, Extract).Some?
    ensures SitemapUrls(a + b, load) == SitemapUrls(a, load) + SitemapUrls(b, load)
  {
    CollectConcat(a, b, load, Extract);
  }

  /** A run over no URLs returns `""` and writes nothing. */
  lemma NoPagesReturnsEmpty(inspect: Inspector, cancelServedAt: set<nat>, now: nat)
    ensures InspectedCount([], inspect, cancelServedAt) == 0
    ensures RunOutcome([], inspect, cancelServedAt, now) == Returned("", None)
  {
  }

  /** A cancelled run returns the same value as a run over no URLs: the
      caller cannot tell them apart. */
  lemma CancelLooksLikeNoPages(urls: seq<string>, inspect: Inspector, cancelServedAt: set<nat>, now: nat)
    requires CancelPoint(urls, cancelServedAt) < |urls|
    requires InspectAll(urls[..CancelPoint(urls, cancelServedAt)], inspect).Some?
    ensures RunOutcome(urls, inspect, cancelServedAt, now) == RunOutcome([], inspect, cancelServedAt, now)
  {
    CancelledAt(urls, inspect, cancelServedAt, now, CancelPoint(urls, cancelServedAt));
  }

  /** A cancel served while the sitemaps are fetched stops the run before
      its first page. */
  lemma CancelDuringFetch(urls: seq<string>, inspect: Inspector, cancelServedAt: set<nat>, now: nat)
    requires 0 in cancelServedAt && urls != []
    ensures InspectedCount(urls, inspect, cancelServedAt) == 0
    ensures RunOutcome(urls, inspect, cancelServedAt, now) == Returned("", None)
  {
    assert CancelPoint(urls, cancelServedAt) == 0;
    CancelledAt(urls, inspect, cancelServedAt, now, 0);
  }

  /** A run that reaches the last page (it completes, or the last page throws)
      sends one frame per page to the subscribed stream, and the last frame it
      sends is the last page's message, which reports 100%. */
  lemma CompleteRunEndsAtHundred(c: Channel, urls: seq<string>, inspect: Inspector, cancelServedAt: set<nat>)
    requires Valid(c) && c.callback.Some?
    requires |urls| > 0 && InspectedCount(urls, inspect, cancelServedAt) == |urls|
    ensures var k := c.callback.value;
            var fs := SendAll(c, Messages(|urls|, |urls|)).streams[k].frames;
            && |fs| == |c.streams[k].frames| + |urls|
            && fs[|fs| - 1] == Frame(ProgressMessage(|urls| - 1, |urls|))
    ensures Percent(|urls| - 1, |urls|) == 100
  {
    var n, k := |urls|, c.callback.value;
    var ms := Messages(n, n);
    SendAllForwards(c, ms);
    var fs := SendAll(c, ms).streams[k].frames;
    assert fs == c.streams[k].frames + Frames(ms);
    assert fs[|fs| - 1] == Frames(ms)[n - 1] == Frame(ms[n - 1]);
    PercentLast(n);
  }

}
