/**
 * Turning the containers matched on a results page into product records
 * (the body of the `.each` callback in `scrapeWebsite`, server/scraper.js).
 *
 * The CSS-selector engine is not modelled: a container arrives with the
 * text the engine reads for the title and price selectors (the text of all
 * their matches, concatenated) and the `href`/`src` attribute of the first
 * link/image match, if there is one.
 */
module Extractor {
  import opened Wrappers
  import opened Text
  import opened Selectors
  import opened Seqs

  datatype Container = Container(titleText: string, priceText: string, href: Option<string>, src: Option<string>)

  /** A product record as the scraper emits and the report consumes it. */
  datatype Product = Product(title: string, price: string, link: string, image: string, source: string)

  const PriceNotAvailable := "Price not available"
  const MissingLink := "#"

  /** `baseUrl + (link.startsWith('/') ? '' : '/') + link`. */
  function JoinRelative(baseUrl: string, link: string): string {
    baseUrl + (if StartsWith(link, "/") then "" else "/") + link
  }

  /**
   * The link of a record: an absent or empty `href` becomes `#`; a relative
   * one is joined to the site's base URL when the site declares one.
   */
  function ResolveLink(href: Option<string>, baseUrl: Option<string>): (link: string)
    ensures link != ""
  {
    match href
    case None => MissingLink
    case Some(h) =>
      if h == "" then MissingLink
      else if !StartsWith(h, "http") && baseUrl.Some? && baseUrl.value != "" then JoinRelative(baseUrl.value, h)
      else h
  }

  /** The record one container yields, or None when its title is blank. */
  function ExtractProduct(c: Container, sel: SiteSelectors, siteName: string): (r: Option<Product>)
    ensures r.Some? ==> r.value.title != "" && r.value.price != "" && r.value.link != ""
    ensures r.Some? ==> r.value.source == siteName
  {
    var title := Trim(c.titleText);
    var price := Trim(c.priceText);
    if title == "" then None
    else Some(Product(
      title,
      if price == "" then PriceNotAvailable else price,
      ResolveLink(c.href, sel.baseUrl),
      c.src.GetOr(""),
      siteName))
  }

  /** The records one container contributes: its record, or nothing. */
  function Emitted(c: Container, sel: SiteSelectors, siteName: string): (r: seq<Product>)
    ensures |r| <= 1
    ensures forall k :: 0 <= k < |r| ==> r[k].title != "" && r[k].source == siteName
  {
    match ExtractProduct(c, sel, siteName)
    case None => []
    case Some(p) => [p]
  }

  /** The records of a sequence of containers, in container order. */
  function ExtractAll(cs: seq<Container>, sel: SiteSelectors, siteName: string): (r: seq<Product>)
    ensures |r| <= |cs|
    ensures forall k :: 0 <= k < |r| ==> r[k].title != "" && r[k].source == siteName
  {
    if cs == [] then []
    else ExtractAll(cs[..|cs| - 1], sel, siteName) + Emitted(cs[|cs| - 1], sel, siteName)
  }

  /**
   * A container yields a record exactly when its title text is not all
   * white space; the record's title is that text trimmed.
   */
  lemma ExtractProductTitle(c: Container, sel: SiteSelectors, siteName: string)
    ensures ExtractProduct(c, sel, siteName).Some? <==> !AllWhitespace(c.titleText)
    ensures ExtractProduct(c, sel, siteName).Some? ==> ExtractProduct(c, sel, siteName).value.title == Trim(c.titleText)
  {
    TrimEmptyIff(c.titleText);
  }

  /**
   * A blank price text gives the sentinel `Price not available`; any other
   * price text is kept with its surrounding white space removed.
   */
  lemma ExtractProductPrice(c: Container, sel: SiteSelectors, siteName: string)
    requires !AllWhitespace(c.titleText)
    ensures ExtractProduct(c, sel, siteName).Some?
    ensures AllWhitespace(c.priceText) ==> ExtractProduct(c, sel, siteName).value.price == PriceNotAvailable
    ensures !AllWhitespace(c.priceText) ==> ExtractProduct(c, sel, siteName).value.price == Trim(c.priceText) != ""
  {
    TrimEmptyIff(c.titleText);
    TrimEmptyIff(c.priceText);
  }

  /** An absent or empty `href` gives `#`; an absent or empty `src` gives the empty image. */
  lemma ExtractProductDefaults(c: Container, sel: SiteSelectors, siteName: string)
    requires ExtractProduct(c, sel, siteName).Some?
    ensures (c.href.None? || c.href == Some("")) ==> ExtractProduct(c, sel, siteName).value.link == MissingLink
    ensures (c.src.None? || c.src == Some("")) ==> ExtractProduct(c, sel, siteName).value.image == ""
    ensures c.src.Some? ==> ExtractProduct(c, sel, siteName).value.image == c.src.value
  {
  }

  /**
   * An absolute (`http`-prefixed) link, or any link on a site without a base
   * URL, is kept as it is.
   */
  lemma ResolveLinkKeepsAbsolute(h: string, baseUrl: Option<string>)
    requires h != ""
    requires StartsWith(h, "http") || baseUrl.None?
    ensures ResolveLink(Some(h), baseUrl) == h
  {
  }

  /**
   * A relative link is joined to the base URL with exactly one `/`, whether
   * or not it starts with one: `/p/1` and `p/1` both give `base/p/1`.
   */
  lemma ResolveLinkSingleSeparator(baseUrl: string, path: string)
    requires baseUrl != ""
    requires !StartsWith(path, "/") && !StartsWith(path, "http") && !StartsWith("/" + path, "http")
    ensures ResolveLink(Some("/" + path), Some(baseUrl)) == baseUrl + "/" + path
    ensures path != "" ==> ResolveLink(Some(path), Some(baseUrl)) == baseUrl + "/" + path
  {
    assert StartsWith("/" + path, "/");
  }

  /** The records of a page with one more container: those before, then that container's. */
  lemma ExtractAllSnoc(cs: seq<Container>, c: Container, sel: SiteSelectors, siteName: string)
    ensures ExtractAll(cs + [c], sel, siteName) == ExtractAll(cs, sel, siteName) + Emitted(c, sel, siteName)
  {
    var s := cs + [c];
    assert s[..|s| - 1] == cs;
    assert s[|s| - 1] == c;
  }

  /** Extraction is compositional: the records of two runs of containers are the records of each, in order. */
  lemma {:induction false} ExtractAllAppend(a: seq<Container>, b: seq<Container>, sel: SiteSelectors, siteName: string)
    ensures ExtractAll(a + b, sel, siteName) == ExtractAll(a, sel, siteName) + ExtractAll(b, sel, siteName)
    decreases |b|
  {
    if b == [] {
      ConcatEmpty(a);
      ConcatEmpty(ExtractAll(a, sel, siteName));
    } else {
      var b', last := b[..|b| - 1], b[|b| - 1];
      InitSnocLast(b);
      ExtractAllAppend(a, b', sel, siteName);
      ExtractAllAppendStep(a, b', last, sel, siteName);
    }
  }

  lemma ExtractAllAppendStep(a: seq<Container>, b: seq<Container>, c: Container, sel: SiteSelectors, siteName: string)
    requires ExtractAll(a + b, sel, siteName) == ExtractAll(a, sel, siteName) + ExtractAll(b, sel, siteName)
    ensures ExtractAll(a + (b + [c]), sel, siteName) == ExtractAll(a, sel, siteName) + ExtractAll(b + [c], sel, siteName)
  {
    ConcatAssoc(a, b, [c]);
    ExtractAllSnoc(a + b, c, sel, siteName);
    ExtractAllSnoc(b, c, sel, siteName);
    ConcatAssoc(ExtractAll(a, sel, siteName), ExtractAll(b, sel, siteName), Emitted(c, sel, siteName));
  }

  /** One container gives one record or none, depending only on its title. */
  lemma ExtractAllSingle(c: Container, sel: SiteSelectors, siteName: string)
    ensures |ExtractAll([c], sel, siteName)| == 1 <==> !AllWhitespace(c.titleText)
    ensures |ExtractAll([c], sel, siteName)| == 0 <==> AllWhitespace(c.titleText)
  {
    assert [c][..0] == [];
    ExtractProductTitle(c, sel, siteName);
  }

  /** `p` is the record of some container of `cs`. */
  predicate FromSomeContainer(cs: seq<Container>, sel: SiteSelectors, siteName: string, p: Product) {
    exists i :: 0 <= i < |cs| && ExtractProduct(cs[i], sel, siteName) == Some(p)
  }

  /** Every record comes from some container of the page. */
  lemma {:induction false} ExtractAllFromContainers(cs: seq<Container>, sel: SiteSelectors, siteName: string)
    ensures forall p :: p in ExtractAll(cs, sel, siteName) ==> FromSomeContainer(cs, sel, siteName, p)
  {
    if cs != [] {
      var init, last := cs[..|cs| - 1], cs[|cs| - 1];
      ExtractAllFromContainers(init, sel, siteName);
      InitSnocLast(cs);
      ExtractAllSnoc(init, last, sel, siteName);
      forall p | p in ExtractAll(cs, sel, siteName) ensures FromSomeContainer(cs, sel, siteName, p) {
        if p in ExtractAll(init, sel, siteName) {
          FromEarlierContainer(init, last, sel, siteName, p);
        } else {
          FromLastContainer(init, last, sel, siteName, p);
        }
      }
    }
  }

  lemma FromEarlierContainer(init: seq<Container>, last: Container, sel: SiteSelectors, siteName: string, p: Product)
    requires FromSomeContainer(init, sel, siteName, p)
    ensures FromSomeContainer(init + [last], sel, siteName, p)
  {
    var i :| 0 <= i < |init| && ExtractProduct(init[i], sel, siteName) == Some(p);
    assert (init + [last])[i] == init[i];
  }

  lemma FromLastContainer(init: seq<Container>, last: Container, sel: SiteSelectors, siteName: string, p: Product)
    requires p in Emitted(last, sel, siteName)
    ensures FromSomeContainer(init + [last], sel, siteName, p)
  {
    assert (init + [last])[|init|] == last;
  }

  /**
   * The `.each` loop: visit the containers in document order and push the
   * record of every container whose title is not blank.
   */
  method ScrapeContainers(cs: seq<Container>, sel: SiteSelectors, siteName: string) returns (results: seq<Product>)
    ensures results == ExtractAll(cs, sel, siteName)
    ensures |results| <= |cs|
    ensures forall k :: 0 <= k < |results| ==> results[k].title != "" && results[k].source == siteName
  {
    results := [];
    var i := 0;
    while i < |cs|
      invariant 0 <= i <= |cs|
      invariant results == ExtractAll(cs[..i], sel, siteName)
    {
      assert cs[..i + 1][..i] == cs[..i] && cs[..i + 1][i] == cs[i];
      assert ExtractAll(cs[..i + 1], sel, siteName) == ExtractAll(cs[..i], sel, siteName) + Emitted(cs[i], sel, siteName);
      var r := ExtractProduct(cs[i], sel, siteName);
      if r.Some? {
        results := results + [r.value];
      }
      assert results == ExtractAll(cs[..i], sel, siteName) + Emitted(cs[i], sel, siteName);
      i := i + 1;
    }
    assert cs[..|cs|] == cs;
  }
}
