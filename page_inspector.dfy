/** What `checkImagesOnPage` extracts from one rendered page. The browser is not
    modelled: a page scan is an input, and only the per-card mapping done in the
    page's `map` callback is computed here. */
module PageInspector {
  import opened Wrappers

  const NoImage := "No Image"
  const UnknownProduct := "Unknown Product"

  /** One element matched by the product-card selector: the `src` attribute of
      its first `img` (`None` when there is no `img` or no attribute) and the
      `textContent` of its name element (`None` when there is no such element). */
  datatype Card = Card(imgSrc: Option<string>, nameText: Option<string>)

  /** A rendered page: the location it ended up at and its cards in DOM order. */
  datatype PageScan = PageScan(href: string, cards: seq<Card>)

  datatype ProductRecord = ProductRecord(pageUrl: string, name: string, imageSrc: string, isMissing: bool)

  /** The page inspector: `None` when launching, navigating or evaluating throws. */
  type Inspector = string -> Option<PageScan>

  /** The characters `String.prototype.trim` removes: ECMAScript WhiteSpace
      (tab, vertical tab, form feed, space, no-break space, BOM, the Zs
      category) and LineTerminator. */
  predicate IsJsSpace(c: char) {
    c in {'\t', '\n', '\U{B}', '\U{C}', '\r', ' ', '\U{A0}', '\U{1680}',
          '\U{2000}', '\U{2001}', '\U{2002}', '\U{2003}', '\U{2004}', '\U{2005}',
          '\U{2006}', '\U{2007}', '\U{2008}', '\U{2009}', '\U{200A}',
          '\U{2028}', '\U{2029}', '\U{202F}', '\U{205F}', '\U{3000}', '\U{FEFF}'}
  }

  function TrimStart(s: string): (r: string)
    ensures |r| <= |s| && r == s[|s| - |r|..]
    ensures forall i :: 0 <= i < |s| - |r| ==> IsJsSpace(s[i])
    ensures r == [] || !IsJsSpace(r[0])
  {
    if s != [] && IsJsSpace(s[0]) then TrimStart(s[1..]) else s
  }

  function TrimEnd(s: string): (r: string)
    ensures |r| <= |s| && r == s[..|r|]
    ensures forall i :: |r| <= i < |s| ==> IsJsSpace(s[i])
    ensures r == [] || !IsJsSpace(r[|r| - 1])
  {
    if s != [] && IsJsSpace(s[|s| - 1]) then TrimEnd(s[..|s| - 1]) else s
  }

  /** `String.prototype.trim`: the slice of `s` left after removing
      whitespace at both ends. */
  function Trim(s: string): (r: string)
    ensures var k := |s| - |TrimStart(s)|;
            k + |r| <= |s| && r == s[k..k + |r|]
            && (forall i :: 0 <= i < k ==> IsJsSpace(s[i]))
            && (forall i :: k + |r| <= i < |s| ==> IsJsSpace(s[i]))
    ensures r != [] ==> !IsJsSpace(r[0]) && !IsJsSpace(r[|r| - 1])
    ensures r == [] <==> forall i :: 0 <= i < |s| ==> IsJsSpace(s[i])
  {
    var t := TrimStart(s);
    var r := TrimEnd(t);
    assert r == s[|s| - |t|..|s| - |t| + |r|];
    r
  }

  /** JavaScript's `value || fallback` on an optional string: `null`,
      `undefined` and `""` are falsy. */
  function OrElse(value: Option<string>, fallback: string): string {
    if value.None? || value.value == "" then fallback else value.value
  }

  /** The object the page's `map` callback builds for one card. */
  function ToRecord(href: string, card: Card): (r: ProductRecord)
    ensures r.pageUrl == href
    ensures r.name != "" && r.imageSrc != ""
    ensures r.isMissing <==> r.imageSrc == NoImage
    ensures r.isMissing <==> card.imgSrc in {None, Some(""), Some(NoImage)}
    ensures card.imgSrc.Some? && card.imgSrc.value != "" ==> r.imageSrc == card.imgSrc.value
    ensures r.name == UnknownProduct || (card.nameText.Some? && r.name == Trim(card.nameText.value))
    ensures card.nameText.Some? && Trim(card.nameText.value) != "" ==> r.name == Trim(card.nameText.value)
  {
    var imgSrc := OrElse(card.imgSrc, NoImage);
    assert imgSrc == NoImage <==> card.imgSrc in {None, Some(""), Some(NoImage)};
    var productName := OrElse(if card.nameText.None? then None else Some(Trim(card.nameText.value)), UnknownProduct);
    ProductRecord(href, productName, imgSrc, imgSrc == "" || imgSrc == NoImage)
  }

  /** The records of one page, one per card, in card order. */
  function PageRecords(scan: PageScan): (rs: seq<ProductRecord>)
    ensures |rs| == |scan.cards|
    ensures forall i :: 0 <= i < |rs| ==> rs[i] == ToRecord(scan.href, scan.cards[i])
  {
    seq(|scan.cards|, i requires 0 <= i < |scan.cards| => ToRecord(scan.href, scan.cards[i]))
  }

  /** The records of every page in `urls`, concatenated in URL order, or `None`
      when inspecting one of them throws. */
  function InspectAll(urls: seq<string>, inspect: Inspector): Option<seq<ProductRecord>>
  {
    if urls == [] then Some([])
    else match InspectAll(urls[..|urls| - 1], inspect)
      case None => None
      case Some(rs) =>
        match inspect(urls[|urls| - 1])
        case None => None
        case Some(scan) => Some(rs + PageRecords(scan))
  }

  /** The position of the first page whose inspection throws, or `|urls|`. */
  function FirstFailure(urls: seq<string>, inspect: Inspector): (k: nat)
    ensures k <= |urls|
    ensures forall j :: 0 <= j < k ==> inspect(urls[j]).Some?
    ensures k < |urls| ==> inspect(urls[k]).None?
  {
    if urls == [] || inspect(urls[0]).None? then 0
    else 1 + FirstFailure(urls[1..], inspect)
  }

  /** Inspecting a concatenation of URL lists succeeds exactly when both parts
      do, and yields their records one after the other. */
  lemma {:induction false} InspectAllConcat(a: seq<string>, b: seq<string>, inspect: Inspector)
    ensures InspectAll(a + b, inspect) ==
      if InspectAll(a, inspect).Some? && InspectAll(b, inspect).Some?
      then Some(InspectAll(a, inspect).value + InspectAll(b, inspect).value)
      else None
  {
    if b == [] {
      assert a + b == a;
      if InspectAll(a, inspect).Some? {
        assert InspectAll(a, inspect).value + [] == InspectAll(a, inspect).value;
      }
    } else {
      var b' := b[..|b| - 1];
      assert (a + b)[..|a + b| - 1] == a + b';
      assert (a + b)[|a + b| - 1] == b[|b| - 1];
      InspectAllConcat(a, b', inspect);
      match InspectAll(a, inspect)
      case None =>
      case Some(x) =>
        match InspectAll(b', inspect)
        case None =>
        case Some(y) =>
          match inspect(b[|b| - 1])
          case None =>
          case Some(scan) =>
            assert x + (y + PageRecords(scan)) == x + y + PageRecords(scan);
    }
  }

  /** The inspection of every page succeeds exactly when no page throws. */
  lemma {:induction false} InspectAllSucceeds(urls: seq<string>, inspect: Inspector)
    ensures InspectAll(urls, inspect).Some? <==> FirstFailure(urls, inspect) == |urls|
  {
    if urls != [] {
      var init := urls[..|urls| - 1];
      InspectAllSucceeds(init, inspect);
      if FirstFailure(urls, inspect) == |urls| {
        assert forall j :: 0 <= j < |init| ==> init[j] == urls[j];
        FirstFailureIs(init, inspect, |init|);
      } else {
        var k := FirstFailure(urls, inspect);
        if k < |init| {
          FirstFailureIs(init, inspect, k);
        }
      }
    }
  }

  /** `FirstFailure` is the only position before which every page succeeds and
      at which a page throws (or the list ends). */
  lemma {:induction false} FirstFailureIs(urls: seq<string>, inspect: Inspector, k: nat)
    requires k <= |urls|
    requires forall j :: 0 <= j < k ==> inspect(urls[j]).Some?
    requires k < |urls| ==> inspect(urls[k]).None?
    ensures FirstFailure(urls, inspect) == k
  {
    if k > 0 {
      FirstFailureIs(urls[1..], inspect, k - 1);
    }
  }
}
