/**
 * The site selector registry (`getSiteSelectors` in server/utils.js): the
 * CSS selectors that locate a product's container and fields on each site's
 * results page, with a `default` entry for every other site.
 */
module Selectors {
  import opened Wrappers

  /**
   * One registry entry. `baseUrl` is the origin that relative product links
   * are resolved against; only some sites declare one.
   */
  datatype SiteSelectors = SiteSelectors(
    container: string,
    title: string,
    price: string,
    link: string,
    image: string,
    baseUrl: Option<string>)

  const DefaultSelectors := SiteSelectors(
    "div.product, div.item, div.product-item, div.product-card",
    "h2, h3, h4, .title, .name",
    ".price, .product-price",
    "a",
    "img",
    None)

  /** The registry in declaration order, `default` first. */
  const Registry: seq<(string, SiteSelectors)> := [
    ("default", DefaultSelectors),
    ("gundam_place", SiteSelectors(".product-item", ".product-item-title", ".product-item-price", "a", "img", None)),
    ("az_toy_hobby", SiteSelectors(".product-card", ".product-card__title", ".product-card__price", "a", "img",
                                   Some("https://aztoyhobby.com"))),
    ("usags", SiteSelectors(".product-item", ".product-item-title", ".product-item-price", "a", "img", None)),
    ("newtype", SiteSelectors(".product-card", ".product-card__title", ".product-card__price", "a", "img", None)),
    ("gundam_galaxy", SiteSelectors(".item", ".name", ".price", "a", "img",
                                    Some("https://www.thegundamgalaxy.com")))
  ]

  /** The entry registered under `name`, if any. */
  function Lookup(entries: seq<(string, SiteSelectors)>, name: string): (r: Option<SiteSelectors>)
    ensures r.Some? <==> exists i :: 0 <= i < |entries| && entries[i].0 == name
    ensures r.Some? ==> exists i :: 0 <= i < |entries| && entries[i] == (name, r.value)
  {
    if entries == [] then None
    else if entries[0].0 == name then Some(entries[0].1)
    else
      var r := Lookup(entries[1..], name);
      assert r.Some? ==> exists i :: 0 <= i < |entries[1..]| && entries[1..][i] == (name, r.value);
      r
  }

  predicate IsRegistered(name: string) {
    exists i :: 0 <= i < |Registry| && Registry[i].0 == name
  }

  /**
   * The selectors to scrape site `name` with: a registered name yields its
   * own entry, any other name the `default` entry.
   */
  function GetSiteSelectors(name: string): (r: SiteSelectors)
    ensures IsRegistered(name) ==> exists i :: 0 <= i < |Registry| && Registry[i] == (name, r)
    ensures !IsRegistered(name) ==> r == DefaultSelectors
  {
    Lookup(Registry, name).GetOr(DefaultSelectors)
  }

  /** No two registry entries share a name, so each name has exactly one entry. */
  lemma RegistryNamesDistinct()
    ensures forall i, j :: 0 <= i < j < |Registry| ==> Registry[i].0 != Registry[j].0
  {
  }

  /**
   * Every entry names a container, and exactly `az_toy_hobby` and
   * `gundam_galaxy` resolve relative links against a (non-empty) base URL.
   */
  lemma SelectorsWellFormed(name: string)
    ensures GetSiteSelectors(name).container != ""
    ensures GetSiteSelectors(name).baseUrl.Some? <==> (name == "az_toy_hobby" || name == "gundam_galaxy")
    ensures GetSiteSelectors(name).baseUrl.Some? ==> GetSiteSelectors(name).baseUrl.value != ""
  {
    var sel := GetSiteSelectors(name);
    if IsRegistered(name) {
      var i :| 0 <= i < |Registry| && Registry[i] == (name, sel);
      assert i in {0, 1, 2, 3, 4, 5};
    } else {
      assert name != "az_toy_hobby" by { assert Registry[2].0 == "az_toy_hobby"; }
      assert name != "gundam_galaxy" by { assert Registry[5].0 == "gundam_galaxy"; }
    }
  }

  // ---------------------------------------------------------------------
  // The lookup as written: `selectors[siteName] || selectors.default`

  /** The names every JavaScript object literal inherits from Object.prototype. */
  const ObjectPrototypeMembers: set<string> := {
    "constructor", "__proto__", "hasOwnProperty", "isPrototypeOf",
    "propertyIsEnumerable", "toString", "toLocaleString", "valueOf",
    "__defineGetter__", "__defineSetter__", "__lookupGetter__", "__lookupSetter__"
  }

  /** What `selectors[name] || selectors.default` evaluates to. */
  datatype PropertyValue = Entry(selectors: SiteSelectors) | InheritedMember(member: string)

  /**
   * The property lookup as the source writes it: an own entry, else an
   * inherited (always truthy) Object.prototype member, else the default.
   */
  function SelectorsAsWritten(name: string): (v: PropertyValue)
    ensures IsRegistered(name) ==> v == Entry(GetSiteSelectors(name))
    ensures !IsRegistered(name) && name !in ObjectPrototypeMembers ==> v == Entry(DefaultSelectors)
  {
    match Lookup(Registry, name)
    case Some(sel) => Entry(sel)
    case None => if name in ObjectPrototypeMembers then InheritedMember(name) else Entry(DefaultSelectors)
  }

  /**
   * The fallback misses inherited names: for a site called `constructor` the
   * lookup yields Object's constructor function, which has no `container`
   * selector, instead of the default entry.
   */
  lemma InheritedNameEscapesFallback()
    ensures !IsRegistered("constructor")
    ensures SelectorsAsWritten("constructor") == InheritedMember("constructor")
    ensures GetSiteSelectors("constructor") == DefaultSelectors
  {
    assert Lookup(Registry, "constructor") == None;
  }
}
