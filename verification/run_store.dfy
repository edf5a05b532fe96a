/**
 * The run store of server/db.js: the `searches`, `sites` and `products`
 * tables as an immutable state, and `initSites`, `saveSearch`,
 * `getSearchResults` and `getRecentSearches` as functions over it.
 *
 * Every table is a sequence of rows in rowid order; the `next...Id` counters
 * stand for SQLite's AUTOINCREMENT sequence of each table. A statement that
 * SQLite rejects inside the save transaction (disk full, database locked,
 * ...) is an input: the index of the first failing statement, if any.
 */
module RunStore {
  import opened Wrappers
  import opened Extractor

  datatype SearchRow = SearchRow(id: nat, term: string, timestamp: string, total: nat)
  datatype SiteRow = SiteRow(id: nat, name: string, baseUrl: string)
  datatype ProductRow = ProductRow(id: nat, searchId: nat, siteId: nat, title: string, price: string, link: string, image: string)

  datatype Store = Store(
    searches: seq<SearchRow>,
    sites: seq<SiteRow>,
    products: seq<ProductRow>,
    nextSearchId: nat,
    nextSiteId: nat,
    nextProductId: nat)

  /** A freshly created database: three empty tables, every id sequence at 1. */
  const EmptyStore := Store([], [], [], 1, 1, 1)

  /** `getRecentSearches()` without an argument. */
  const DefaultRecentLimit := 10

  datatype StoreError =
    | SiteNotFound(name: string)
    | SearchNotFound(searchId: int)
    | StatementFailed(statement: nat)  // the n-th statement of the save transaction was rejected

  // ---------------------------------------------------------------------
  // Invariant of every reachable database

  /** Row ids in increasing order, all positive and below the table's next id. */
  predicate Numbered(ids: seq<nat>, next: nat) {
    && 1 <= next
    && (forall i, j :: 0 <= i < j < |ids| ==> ids[i] < ids[j])
    && (forall i :: 0 <= i < |ids| ==> 1 <= ids[i] < next)
  }

  function SearchIds(rows: seq<SearchRow>): (ids: seq<nat>)
    ensures |ids| == |rows| && forall i :: 0 <= i < |rows| ==> ids[i] == rows[i].id
  {
    seq(|rows|, i requires 0 <= i < |rows| => rows[i].id)
  }

  function SiteIds(rows: seq<SiteRow>): (ids: seq<nat>)
    ensures |ids| == |rows| && forall i :: 0 <= i < |rows| ==> ids[i] == rows[i].id
  {
    seq(|rows|, i requires 0 <= i < |rows| => rows[i].id)
  }

  function ProductIds(rows: seq<ProductRow>): (ids: seq<nat>)
    ensures |ids| == |rows| && forall i :: 0 <= i < |rows| ==> ids[i] == rows[i].id
  {
    seq(|rows|, i requires 0 <= i < |rows| => rows[i].id)
  }

  /** `name TEXT UNIQUE` on the sites table. */
  predicate UniqueNames(sites: seq<SiteRow>) {
    forall i, j :: 0 <= i < j < |sites| ==> sites[i].name != sites[j].name
  }

  predicate HasSearch(searches: seq<SearchRow>, id: nat) {
    exists r :: r in searches && r.id == id
  }

  predicate HasSite(sites: seq<SiteRow>, id: nat) {
    exists s :: s in sites && s.id == id
  }

  /** The foreign keys of the products table (enforced: `PRAGMA foreign_keys = ON`). */
  predicate ForeignKeys(st: Store) {
    forall p :: p in st.products ==> HasSearch(st.searches, p.searchId) && HasSite(st.sites, p.siteId)
  }

  predicate Valid(st: Store) {
    && Numbered(SearchIds(st.searches), st.nextSearchId)
    && Numbered(SiteIds(st.sites), st.nextSiteId)
    && Numbered(ProductIds(st.products), st.nextProductId)
    && UniqueNames(st.sites)
    && ForeignKeys(st)
  }

  // ---------------------------------------------------------------------
  // Lookups

  /** `SELECT id FROM sites WHERE name = ?`. */
  function FindSite(sites: seq<SiteRow>, name: string): (r: Option<SiteRow>)
    ensures r.Some? ==> r.value in sites && r.value.name == name
    ensures r.None? ==> forall s :: s in sites ==> s.name != name
  {
    if sites == [] then None
    else if sites[0].name == name then Some(sites[0])
    else FindSite(sites[1..], name)
  }

  predicate Registered(sites: seq<SiteRow>, name: string) {
    exists s :: s in sites && s.name == name
  }

  /** `SELECT * FROM searches WHERE id = ?`. */
  function FindSearch(searches: seq<SearchRow>, id: int): (r: Option<SearchRow>)
    ensures r.Some? ==> r.value in searches && r.value.id == id
    ensures r.None? ==> forall row :: row in searches ==> row.id != id
  {
    if searches == [] then None
    else if searches[0].id == id then Some(searches[0])
    else FindSearch(searches[1..], id)
  }

  // ---------------------------------------------------------------------
  // initSites

  /**
   * `INSERT OR IGNORE INTO sites (name, base_url)`: a name already present is
   * ignored. SQLite takes the next AUTOINCREMENT id before the UNIQUE check
   * rejects the row, so the id sequence advances whether or not a row is added.
   */
  function RegisterSite(st: Store, site: (string, string)): (st': Store)
    ensures Registered(st'.sites, site.0)
    ensures st'.nextSiteId == st.nextSiteId + 1
    ensures Registered(st.sites, site.0) ==> st'.sites == st.sites
    ensures !Registered(st.sites, site.0) ==> st'.sites == st.sites + [SiteRow(st.nextSiteId, site.0, site.1)]
    ensures st'.searches == st.searches && st'.products == st.products
    ensures st'.nextSearchId == st.nextSearchId && st'.nextProductId == st.nextProductId
  {
    match FindSite(st.sites, site.0)
    case Some(_) => st.(nextSiteId := st.nextSiteId + 1)
    case None =>
      var row := SiteRow(st.nextSiteId, site.0, site.1);
      assert row in st.sites + [row];
      st.(sites := st.sites + [row], nextSiteId := st.nextSiteId + 1)
  }

  /**
   * `initSites`: register every (name, base URL) of the list in order. The
   * existing rows are kept as they are and the other tables are untouched;
   * every entry of the list uses up one site id, added or not.
   */
  function InitSites(st: Store, urlList: seq<(string, string)>): (st': Store)
    ensures |st.sites| <= |st'.sites| && st'.sites[..|st.sites|] == st.sites
    ensures st'.searches == st.searches && st'.products == st.products
    ensures st'.nextSearchId == st.nextSearchId && st'.nextProductId == st.nextProductId
    ensures st'.nextSiteId == st.nextSiteId + |urlList|
  {
    if urlList == [] then st
    else
      var prev := InitSites(st, urlList[..|urlList| - 1]);
      var st' := RegisterSite(prev, urlList[|urlList| - 1]);
      assert st'.sites[..|prev.sites|] == prev.sites;
      assert st'.sites[..|st.sites|] == prev.sites[..|st.sites|];
      st'
  }

  // ---------------------------------------------------------------------
  // saveSearch

  /** `totalResults`: the sum of the lengths of the per-site lists. */
  function TotalResults(results: seq<(string, seq<Product>)>): nat {
    if results == [] then 0 else |results[0].1| + TotalResults(results[1..])
  }

  /** The price stored for a record: a falsy (empty) price becomes the sentinel. */
  function StoredPrice(p: Product): (price: string)
    ensures price != ""
    ensures p.price != "" ==> price == p.price
  {
    if p.price == "" then PriceNotAvailable else p.price
  }

  /** The link stored for a record: a falsy (empty) link becomes `#`. */
  function StoredLink(p: Product): (link: string)
    ensures link != ""
    ensures p.link != "" ==> link == p.link
  {
    if p.link == "" then MissingLink else p.link
  }

  /** The product rows of one site's records, numbered from `nextId`. */
  function ProductRows(searchId: nat, siteId: nat, records: seq<Product>, nextId: nat): (rows: seq<ProductRow>)
    ensures |rows| == |records|
    ensures forall k :: 0 <= k < |rows| ==>
              && rows[k].id == nextId + k && rows[k].searchId == searchId && rows[k].siteId == siteId
              && rows[k].title == records[k].title && rows[k].price == StoredPrice(records[k])
              && rows[k].link == StoredLink(records[k]) && rows[k].image == records[k].image
  {
    if records == [] then []
    else
      var p := records[0];
      [ProductRow(nextId, searchId, siteId, p.title, StoredPrice(p), StoredLink(p), p.image)]
      + ProductRows(searchId, siteId, records[1..], nextId + 1)
  }

  /** Why inserting the products stopped: the unknown site, and how many products were inserted before. */
  datatype Halt = Halt(name: string, inserted: nat)

  /**
   * The products of one entry of the results: none for an empty list,
   * else the site's id is looked up and its records become rows.
   */
  function EntryRows(sites: seq<SiteRow>, searchId: nat, entry: (string, seq<Product>), nextId: nat)
    : (r: Result<seq<ProductRow>, Halt>)
    ensures r.Success? ==> |r.value| == |entry.1|
    ensures r.Failure? ==> r.error == Halt(entry.0, 0) && entry.1 != []
  {
    if entry.1 == [] then Success([])
    else match FindSite(sites, entry.0)
      case None => Failure(Halt(entry.0, 0))
      case Some(site) =>
        Success(ProductRows(searchId, site.id, entry.1, nextId))
  }

  /**
   * The products loop of `saveSearch`: skip the empty lists, look up each
   * other site's id and insert its records, in list order; the first site
   * with records that is not registered stops the loop.
   */
  function NewProducts(sites: seq<SiteRow>, searchId: nat, results: seq<(string, seq<Product>)>, nextId: nat)
    : (r: Result<seq<ProductRow>, Halt>)
    ensures r.Success? ==> |r.value| == TotalResults(results)
    ensures r.Failure? ==> r.error.inserted <= TotalResults(results)
  {
    if results == [] then Success([])
    else match EntryRows(sites, searchId, results[0], nextId)
      case Failure(h) => Failure(h)
      case Success(here) =>
        match NewProducts(sites, searchId, results[1..], nextId + |here|)
        case Failure(h) => Failure(Halt(h.name, |here| + h.inserted))
        case Success(rest) => Success(here + rest)
  }

  /**
   * `saveSearch` as one transaction. Statement 0 is BEGIN, 1 inserts the
   * search row, 2 .. total+1 insert the products and total+2 is COMMIT;
   * `failing` is the first statement SQLite rejects, if any. Any error rolls
   * the whole transaction back, so the store is returned unchanged.
   */
  function SaveSearch(st: Store, term: string, timestamp: string, results: seq<(string, seq<Product>)>, failing: Option<nat>)
    : (out: (Store, Result<nat, StoreError>))
    ensures out.1.Failure? ==> out.0 == st
    ensures out.1.Success? ==>
              && out.1.value == st.nextSearchId
              && out.0.searches == st.searches + [SearchRow(st.nextSearchId, term, timestamp, TotalResults(results))]
              && out.0.sites == st.sites && out.0.nextSiteId == st.nextSiteId
              && |out.0.products| == |st.products| + TotalResults(results)
              && out.0.products[..|st.products|] == st.products
  {
    var searchId := st.nextSearchId;
    var total := TotalResults(results);
    match NewProducts(st.sites, searchId, results, st.nextProductId)
    case Failure(h) =>
      if failing.Some? && failing.value <= 1 + h.inserted then (st, Failure(StatementFailed(failing.value)))
      else (st, Failure(SiteNotFound(h.name)))
    case Success(rows) =>
      if failing.Some? && failing.value <= total + 2 then (st, Failure(StatementFailed(failing.value)))
      else
        var st' := st.(searches := st.searches + [SearchRow(searchId, term, timestamp, total)],
                       products := st.products + rows,
                       nextSearchId := searchId + 1,
                       nextProductId := st.nextProductId + |rows|);
        assert st'.products[..|st.products|] == st.products;
        (st', Success(searchId))
  }

  // ---------------------------------------------------------------------
  // getSearchResults

  /** A product as `getSearchResults` rebuilds it from a row, with its site's name as source. */
  function AsProduct(row: ProductRow, siteName: string): Product {
    Product(row.title, row.price, row.link, row.image, siteName)
  }

  /** The products of one search stored for one site, in row order. */
  function SiteProducts(rows: seq<ProductRow>, searchId: int, site: SiteRow): (r: seq<Product>)
    ensures |r| <= |rows|
    ensures forall k :: 0 <= k < |r| ==> r[k].source == site.name
  {
    if rows == [] then []
    else
      (if rows[0].searchId == searchId && rows[0].siteId == site.id then [AsProduct(rows[0], site.name)] else [])
      + SiteProducts(rows[1..], searchId, site)
  }

  /**
   * The results object as a list of (key, records) entries: one entry per
   * site, taken in the order of the `sites` rows handed in. The order of
   * the keys is a choice of the model; the contracts that read the object
   * back go through `ValueOf` and do not depend on it.
   */
  function Grouped(sites: seq<SiteRow>, rows: seq<ProductRow>, searchId: int): (r: seq<(string, seq<Product>)>)
    ensures |r| == |sites|
    ensures forall j :: 0 <= j < |sites| ==> r[j].0 == sites[j].name
    ensures forall j :: 0 <= j < |sites| ==> r[j].1 == SiteProducts(rows, searchId, sites[j])
  {
    if sites == [] then []
    else [(sites[0].name, SiteProducts(rows, searchId, sites[0]))] + Grouped(sites[1..], rows, searchId)
  }

  /** `results[name]` on a results object: the records under the key `name`, None when it is no key. */
  function ValueOf(results: seq<(string, seq<Product>)>, name: string): Option<seq<Product>> {
    if results == [] then None
    else if results[0].0 == name then Some(results[0].1)
    else ValueOf(results[1..], name)
  }

  /** A name has a value exactly when some entry has it as key, and the value is that of the first such entry. */
  lemma {:induction false} ValueOfKeys(results: seq<(string, seq<Product>)>, name: string)
    ensures ValueOf(results, name).Some? <==> exists j :: 0 <= j < |results| && results[j].0 == name
    ensures ValueOf(results, name).Some? ==>
              exists j :: 0 <= j < |results| && results[j] == (name, ValueOf(results, name).value)
                          && forall k :: 0 <= k < j ==> results[k].0 != name
  {
    if results != [] {
      ValueOfKeys(results[1..], name);
      if results[0].0 != name {
        if exists j :: 0 <= j < |results| && results[j].0 == name {
          var j :| 0 <= j < |results| && results[j].0 == name;
          assert results[1..][j - 1].0 == name;
        }
        if ValueOf(results, name).Some? {
          var j :| 0 <= j < |results[1..]| && results[1..][j] == (name, ValueOf(results, name).value)
                   && forall k :: 0 <= k < j ==> results[1..][k].0 != name;
          assert results[j + 1] == (name, ValueOf(results, name).value);
          assert forall k :: 1 <= k < j + 1 ==> results[k] == results[1..][k - 1];
        }
      } else {
        assert results[0] == (name, ValueOf(results, name).value);
      }
    }
  }

  /** Looking a name up in the grouped object finds the products of the site of that name. */
  lemma {:induction false} ValueOfGrouped(sites: seq<SiteRow>, rows: seq<ProductRow>, searchId: int, name: string)
    ensures ValueOf(Grouped(sites, rows, searchId), name)
            == if FindSite(sites, name).Some? then Some(SiteProducts(rows, searchId, FindSite(sites, name).value)) else None
  {
    if sites != [] {
      var g := Grouped(sites, rows, searchId);
      assert g[1..] == Grouped(sites[1..], rows, searchId);
      ValueOfGrouped(sites[1..], rows, searchId, name);
    }
  }

  lemma ValueOfGroupedAll(sites: seq<SiteRow>, rows: seq<ProductRow>, searchId: int)
    ensures forall name :: ValueOf(Grouped(sites, rows, searchId), name)
              == if FindSite(sites, name).Some? then Some(SiteProducts(rows, searchId, FindSite(sites, name).value)) else None
  {
    forall name {
      ValueOfGrouped(sites, rows, searchId, name);
    }
  }

  datatype StoredSearch = StoredSearch(search: SearchRow, results: seq<(string, seq<Product>)>)

  /**
   * `getSearchResults`: the search row and its products grouped by site, or
   * `Search not found`. The keys of the object are exactly the registered
   * site names, each once when names are unique; the value under a name is
   * the search's products of that site, each naming the site as source.
   */
  function GetSearchResults(st: Store, searchId: int): (r: Result<StoredSearch, StoreError>)
    ensures r.Failure? <==> forall row :: row in st.searches ==> row.id != searchId
    ensures r.Failure? ==> r.error == SearchNotFound(searchId)
    ensures r.Success? ==> r.value.search in st.searches && r.value.search.id == searchId
    ensures r.Success? ==> |r.value.results| == |st.sites|
    ensures r.Success? ==> forall name :: ValueOf(r.value.results, name).Some? <==> Registered(st.sites, name)
    ensures r.Success? && UniqueNames(st.sites) ==>
              forall j, k :: 0 <= j < k < |r.value.results| ==> r.value.results[j].0 != r.value.results[k].0
    ensures r.Success? ==> forall name :: FindSite(st.sites, name).Some? ==>
              ValueOf(r.value.results, name) == Some(SiteProducts(st.products, searchId, FindSite(st.sites, name).value))
    ensures r.Success? ==> forall name :: ValueOf(r.value.results, name).Some? ==>
              forall p :: p in ValueOf(r.value.results, name).value ==> p.source == name
  {
    match FindSearch(st.searches, searchId)
    case None => Failure(SearchNotFound(searchId))
    case Some(row) =>
      ValueOfGroupedAll(st.sites, st.products, searchId);
      Success(StoredSearch(row, Grouped(st.sites, st.products, searchId)))
  }

  // ---------------------------------------------------------------------
  // getRecentSearches

  function Reverse<T>(s: seq<T>): (r: seq<T>)
    ensures |r| == |s|
    ensures forall k :: 0 <= k < |s| ==> r[k] == s[|s| - 1 - k]
  {
    if s == [] then [] else [s[|s| - 1]] + Reverse(s[..|s| - 1])
  }

  /** How many rows `LIMIT limit` lets through out of `n`; SQLite reads a negative limit as no limit. */
  function LimitCount(limit: int, n: nat): (count: nat)
    ensures count <= n
    ensures 0 <= limit ==> count == if limit < n then limit else n
    ensures limit < 0 ==> count == n
  {
    if 0 <= limit < n then limit else n
  }

  /** `SELECT ... FROM searches ORDER BY id DESC LIMIT ?`, ids growing with row order. */
  function GetRecentSearches(st: Store, limit: int): (r: seq<SearchRow>)
    ensures |r| == LimitCount(limit, |st.searches|)
    ensures forall k :: 0 <= k < |r| ==> r[k] in st.searches
  {
    Reverse(st.searches)[..LimitCount(limit, |st.searches|)]
  }
}
