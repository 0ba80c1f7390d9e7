/** Parsed sitemap documents, as the XML parser hands them to the code.
    The shapes follow the `urlset`/`url`/`loc` and `sitemapindex`/`sitemap`/`loc`
    tags of the sitemaps.org Sitemap protocol 0.9 ("XML tag definitions" and
    "Using Sitemap index files"). */
module Sitemap {
  import opened Wrappers

  /** One `<url>` or `<sitemap>` element, reduced to its `<loc>` text. */
  datatype Entry = Entry(loc: string)

  /** A repeated child element as the parser returns it: missing, a single
      object (exactly one child), or an array (several children). */
  datatype Field = Absent | Single(entry: Entry) | Many(entries: seq<Entry>)

  datatype UrlSet = UrlSet(url: Field)

  datatype SitemapIndex = SitemapIndex(sitemap: Field)

  /** The root of a parsed document. A root element that is missing, or that the
      parser turns into a falsy value (an empty element becomes `""`), is `None`. */
  datatype Document = Document(urlset: Option<UrlSet>, sitemapindex: Option<SitemapIndex>)

  /** Fetching a URL and parsing the response: `None` when the HTTP request
      fails or the parser throws. */
  type Loader = string -> Option<Document>

  /** `entries.map(entry => entry.loc)`. */
  function Locs(entries: seq<Entry>): (r: seq<string>)
    ensures |r| == |entries|
    ensures forall i :: 0 <= i < |entries| ==> r[i] == entries[i].loc
  {
    if entries == [] then [] else [entries[0].loc] + Locs(entries[1..])
  }

  /** What one parsed document contributes to the URL list; `None` when the
      extraction throws. */
  type Extractor = Document -> Option<seq<string>>

  /** The URL lists of `sitemaps`, fetched and extracted one after the other
      and concatenated; `None` as soon as a fetch or an extraction throws. */
  function Collect(sitemaps: seq<string>, load: Loader, extract: Extractor): Option<seq<string>> {
    if sitemaps == [] then Some([])
    else match Collect(sitemaps[..|sitemaps| - 1], load, extract)
      case None => None
      case Some(urls) =>
        match load(sitemaps[|sitemaps| - 1])
        case None => None
        case Some(doc) =>
          match extract(doc)
          case None => None
          case Some(more) => Some(urls + more)
  }

  /** Collecting from a concatenation: both parts must succeed, and their
      URL lists are joined in input order. */
  lemma {:induction false} CollectConcat(a: seq<string>, b: seq<string>, load: Loader, extract: Extractor)
    ensures Collect(a + b, load, extract) ==
      if Collect(a, load, extract).Some? && Collect(b, load, extract).Some?
      then Some(Collect(a, load, extract).value + Collect(b, load, extract).value)
      else None
  {
    if b == [] {
      assert a + b == a;
      if Collect(a, load, extract).Some? {
        assert Collect(a, load, extract).value + [] == Collect(a, load, extract).value;
      }
    } else {
      var b' := b[..|b| - 1];
      assert (a + b)[..|a + b| - 1] == a + b';
      assert (a + b)[|a + b| - 1] == b[|b| - 1];
      CollectConcat(a, b', load, extract);
      match Collect(a, load, extract)
      case None =>
      case Some(x) =>
        match Collect(b', load, extract)
        case None =>
        case Some(y) =>
          match load(b[|b| - 1])
          case None =>
          case Some(doc) =>
            match extract(doc)
            case None =>
            case Some(z) => assert x + (y + z) == x + y + z;
    }
  }

  /** A single sitemap contributes exactly what its document yields. */
  lemma CollectOne(s: string, load: Loader, extract: Extractor)
    ensures Collect([s], load, extract) ==
      match load(s)
      case None => None
      case Some(doc) => extract(doc)
  {
    assert [s][..0] == [];
    if load(s).Some? && extract(load(s).value).Some? {
      assert [] + extract(load(s).value).value == extract(load(s).value).value;
    }
  }

  /** One sitemap that fails, anywhere in the list, fails the whole collection. */
  lemma CollectFailsAt(sitemaps: seq<string>, j: nat, load: Loader, extract: Extractor)
    requires j < |sitemaps|
    requires load(sitemaps[j]).None? || extract(load(sitemaps[j]).value).None?
    ensures Collect(sitemaps, load, extract).None?
  {
    assert sitemaps == sitemaps[..j] + [sitemaps[j]] + sitemaps[j + 1..];
    CollectOne(sitemaps[j], load, extract);
    CollectConcat(sitemaps[..j], [sitemaps[j]], load, extract);
    CollectConcat(sitemaps[..j] + [sitemaps[j]], sitemaps[j + 1..], load, extract);
  }
}
