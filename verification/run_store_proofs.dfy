/**
 * What the run store promises: `initSites` is idempotent, `saveSearch` is
 * all-or-nothing and keeps the store well formed, and a saved search reads
 * back through `getSearchResults` and `getRecentSearches`.
 */
module RunStoreProperties {
  import opened Wrappers
  import opened Extractor
  import opened RunStore

  // ---------------------------------------------------------------------
  // Row numbering

  lemma NumberedAppend(ids: seq<nat>, next: nat)
    requires Numbered(ids, next)
    ensures Numbered(ids + [next], next + 1)
  {
  }

  lemma NumberedConcat(ids: seq<nat>, next: nat, more: seq<nat>, next': nat)
    requires Numbered(ids, next) && Numbered(more, next') && next <= next'
    requires forall k :: 0 <= k < |more| ==> next <= more[k]
    ensures Numbered(ids + more, next')
  {
    var all := ids + more;
    forall i, j | 0 <= i < j < |all| ensures all[i] < all[j] {
      if j < |ids| {
      } else if i < |ids| {
        assert all[i] < next <= more[j - |ids|] == all[j];
      } else {
        assert all[i] == more[i - |ids|] && all[j] == more[j - |ids|];
      }
    }
  }

  lemma SearchIdsAppend(rows: seq<SearchRow>, row: SearchRow)
    ensures SearchIds(rows + [row]) == SearchIds(rows) + [row.id]
  {
    assert (rows + [row])[..|rows|] == rows;
  }

  lemma SiteIdsAppend(rows: seq<SiteRow>, row: SiteRow)
    ensures SiteIds(rows + [row]) == SiteIds(rows) + [row.id]
  {
    assert (rows + [row])[..|rows|] == rows;
  }

  lemma ProductIdsConcat(a: seq<ProductRow>, b: seq<ProductRow>)
    ensures ProductIds(a + b) == ProductIds(a) + ProductIds(b)
  {
    assert |ProductIds(a + b)| == |ProductIds(a) + ProductIds(b)|;
    forall k | 0 <= k < |a + b| ensures ProductIds(a + b)[k] == (ProductIds(a) + ProductIds(b))[k] {
      if k >= |a| { assert (a + b)[k] == b[k - |a|]; }
    }
  }

  /** In a well-formed store a site row is determined by its id, and by its name. */
  lemma SiteKeys(st: Store, a: SiteRow, b: SiteRow)
    requires Valid(st) && a in st.sites && b in st.sites
    ensures a.id == b.id ==> a == b
    ensures a.name == b.name ==> a == b
  {
    var i :| 0 <= i < |st.sites| && st.sites[i] == a;
    var j :| 0 <= j < |st.sites| && st.sites[j] == b;
    var ids := SiteIds(st.sites);
    assert ids[i] == a.id && ids[j] == b.id;
    if i < j {
      assert ids[i] < ids[j];
    } else if j < i {
      assert ids[j] < ids[i];
    }
  }

  /** Every stored row of a well-formed store has an id below the table's next id. */
  lemma SearchBelowNext(st: Store, row: SearchRow)
    requires Valid(st) && row in st.searches
    ensures row.id < st.nextSearchId
  {
    var i :| 0 <= i < |st.searches| && st.searches[i] == row;
    assert SearchIds(st.searches)[i] == row.id;
  }

  // ---------------------------------------------------------------------
  // initSites

  lemma RegisterSiteValid(st: Store, site: (string, string))
    requires Valid(st)
    ensures Valid(RegisterSite(st, site))
  {
    if !Registered(st.sites, site.0) {
      var row := SiteRow(st.nextSiteId, site.0, site.1);
      var st' := RegisterSite(st, site);
      SiteIdsAppend(st.sites, row);
      NumberedAppend(SiteIds(st.sites), st.nextSiteId);
      forall i, j | 0 <= i < j < |st'.sites| ensures st'.sites[i].name != st'.sites[j].name {
        if j == |st.sites| {
          assert st.sites[i] in st.sites;
        } else {
          assert st'.sites[i] == st.sites[i] && st'.sites[j] == st.sites[j];
        }
      }
      forall p | p in st'.products ensures HasSearch(st'.searches, p.searchId) && HasSite(st'.sites, p.siteId) {
        assert HasSite(st.sites, p.siteId);
        var s :| s in st.sites && s.id == p.siteId;
        assert s in st'.sites;
      }
    }
  }

  /** `initSites` keeps the store well formed: ids fresh and increasing, names unique. */
  lemma {:induction false} InitSitesValid(st: Store, urlList: seq<(string, string)>)
    requires Valid(st)
    ensures Valid(InitSites(st, urlList))
  {
    if urlList != [] {
      InitSitesValid(st, urlList[..|urlList| - 1]);
      RegisterSiteValid(InitSites(st, urlList[..|urlList| - 1]), urlList[|urlList| - 1]);
    }
  }

  lemma RegisterSiteKeeps(st: Store, site: (string, string), name: string)
    requires Registered(st.sites, name)
    ensures Registered(RegisterSite(st, site).sites, name)
  {
    var s :| s in st.sites && s.name == name;
    assert s in RegisterSite(st, site).sites;
  }

  /** After `initSites` every name of the list has a row in `sites`. */
  lemma {:induction false} InitSitesRegisters(st: Store, urlList: seq<(string, string)>)
    ensures forall j :: 0 <= j < |urlList| ==> Registered(InitSites(st, urlList).sites, urlList[j].0)
  {
    if urlList != [] {
      var init := urlList[..|urlList| - 1];
      var prev := InitSites(st, init);
      InitSitesRegisters(st, init);
      forall j | 0 <= j < |urlList| ensures Registered(InitSites(st, urlList).sites, urlList[j].0) {
        if j < |init| {
          assert urlList[j] == init[j];
          RegisterSiteKeeps(prev, urlList[|urlList| - 1], urlList[j].0);
        }
      }
    }
  }

  /**
   * `INSERT OR IGNORE` of names that all exist already adds no row and
   * changes no table; only the site id sequence moves on, by one per name.
   */
  lemma {:induction false} InitSitesNoop(st: Store, urlList: seq<(string, string)>)
    requires forall j :: 0 <= j < |urlList| ==> Registered(st.sites, urlList[j].0)
    ensures InitSites(st, urlList).sites == st.sites
    ensures InitSites(st, urlList) == st.(nextSiteId := st.nextSiteId + |urlList|)
  {
    if urlList != [] {
      var init := urlList[..|urlList| - 1];
      assert forall j :: 0 <= j < |init| ==> init[j] == urlList[j];
      InitSitesNoop(st, init);
    }
  }

  /**
   * A second `initSites` with the same list (every start-up runs it) adds no
   * rows; it only advances the site id sequence by the length of the list.
   */
  lemma InitSitesIdempotent(st: Store, urlList: seq<(string, string)>)
    ensures var once := InitSites(st, urlList);
            InitSites(once, urlList) == once.(nextSiteId := once.nextSiteId + |urlList|)
  {
    InitSitesRegisters(st, urlList);
    InitSitesNoop(InitSites(st, urlList), urlList);
  }

  /**
   * The ids a restart uses up show in the next new site: with A and B
   * stored, registering A, B and C again gives C the id 5, not 3.
   */
  lemma RestartSkipsIds()
    ensures var st := InitSites(InitSites(EmptyStore, [("A", "a"), ("B", "b")]), [("A", "a"), ("B", "b"), ("C", "c")]);
            st.sites == [SiteRow(1, "A", "a"), SiteRow(2, "B", "b"), SiteRow(5, "C", "c")] && st.nextSiteId == 6
  {
    var ab := [("A", "a"), ("B", "b")];
    var first := InitSites(EmptyStore, ab);
    FirstStartAB();
    RestartKnownAB();
    InitSitesSnoc(first, ab, ("C", "c"));
    assert ab + [("C", "c")] == [("A", "a"), ("B", "b"), ("C", "c")];
    CNotStored(first.(nextSiteId := 5));
  }

  /** `initSites` with one more entry registers that entry after the others. */
  lemma InitSitesSnoc(st: Store, urlList: seq<(string, string)>, site: (string, string))
    ensures InitSites(st, urlList + [site]) == RegisterSite(InitSites(st, urlList), site)
  {
    assert (urlList + [site])[..|urlList|] == urlList;
  }

  lemma CNotStored(st: Store)
    requires st.sites == [SiteRow(1, "A", "a"), SiteRow(2, "B", "b")] && st.nextSiteId == 5
    ensures RegisterSite(st, ("C", "c")).sites == [SiteRow(1, "A", "a"), SiteRow(2, "B", "b"), SiteRow(5, "C", "c")]
    ensures RegisterSite(st, ("C", "c")).nextSiteId == 6
  {
    assert !Registered(st.sites, "C");
  }

  /** A fresh database after A and B are registered. */
  lemma FirstStartAB()
    ensures var st := InitSites(EmptyStore, [("A", "a"), ("B", "b")]);
            st.sites == [SiteRow(1, "A", "a"), SiteRow(2, "B", "b")] && st.nextSiteId == 3
  {
    assert [("A", "a"), ("B", "b")][..1] == [("A", "a")] && [("A", "a")][..0] == [];
  }

  /** Registering the stored A and B again only moves the site id sequence from 3 to 5. */
  lemma RestartKnownAB()
    ensures var first := InitSites(EmptyStore, [("A", "a"), ("B", "b")]);
            InitSites(first, [("A", "a"), ("B", "b")]) == first.(nextSiteId := 5)
  {
    var first := InitSites(EmptyStore, [("A", "a"), ("B", "b")]);
    FirstStartAB();
    assert Registered(first.sites, "A") && Registered(first.sites, "B") by {
      assert first.sites[0] in first.sites && first.sites[1] in first.sites;
    }
    InitSitesNoop(first, [("A", "a"), ("B", "b")]);
  }

  /** The configuration of tests/db.spec.js: one site, stored with its base URL and id 1. */
  lemma InitSitesExample()
    ensures InitSites(EmptyStore, [("TestSite", "https://testsite.com")]).sites
            == [SiteRow(1, "TestSite", "https://testsite.com")]
  {
    assert [("TestSite", "https://testsite.com")][..0] == [];
  }

  // ---------------------------------------------------------------------
  // saveSearch: when it fails and how

  /** Every site with a non-empty list is registered. */
  predicate AllSitesKnown(sites: seq<SiteRow>, results: seq<(string, seq<Product>)>) {
    forall j :: 0 <= j < |results| && results[j].1 != [] ==> Registered(sites, results[j].0)
  }

  /** `name` has records in `results` and no row in `sites`. */
  predicate UnknownSiteWithRecords(sites: seq<SiteRow>, results: seq<(string, seq<Product>)>, name: string) {
    !Registered(sites, name) && exists j :: 0 <= j < |results| && results[j].0 == name && results[j].1 != []
  }

  lemma FindSiteRegistered(sites: seq<SiteRow>, name: string)
    ensures FindSite(sites, name).Some? <==> Registered(sites, name)
  {
    if FindSite(sites, name).Some? {
      assert FindSite(sites, name).value in sites;
    }
  }

  lemma EntryRowsSucceeds(sites: seq<SiteRow>, searchId: nat, entry: (string, seq<Product>), nextId: nat)
    ensures EntryRows(sites, searchId, entry, nextId).Success? <==> (entry.1 == [] || Registered(sites, entry.0))
  {
    FindSiteRegistered(sites, entry.0);
  }

  lemma {:induction false} NewProductsSucceeds(sites: seq<SiteRow>, searchId: nat, results: seq<(string, seq<Product>)>, nextId: nat)
    ensures NewProducts(sites, searchId, results, nextId).Success? <==> AllSitesKnown(sites, results)
    ensures NewProducts(sites, searchId, results, nextId).Failure? ==>
              UnknownSiteWithRecords(sites, results, NewProducts(sites, searchId, results, nextId).error.name)
  {
    if results != [] {
      var n := nextId + |results[0].1|;
      var first := EntryRows(sites, searchId, results[0], nextId);
      var rest := NewProducts(sites, searchId, results[1..], n);
      NewProductsUnfold(sites, searchId, results, nextId);
      CombineOutcome(first, rest);
      AllSitesKnownCons(sites, results);
      EntryRowsSucceeds(sites, searchId, results[0], nextId);
      NewProductsSucceeds(sites, searchId, results[1..], n);
      if first.Failure? {
        FirstUnknown(sites, results);
      } else if rest.Failure? {
        UnknownFromRest(sites, results, rest.error.name);
      }
    }
  }

  /** The combined rows fail exactly when one part fails, and with the name of the first failing part. */
  lemma CombineOutcome(first: Result<seq<ProductRow>, Halt>, rest: Result<seq<ProductRow>, Halt>)
    ensures Combine(first, rest).Success? <==> first.Success? && rest.Success?
    ensures first.Failure? ==> Combine(first, rest).error.name == first.error.name
    ensures first.Success? && rest.Failure? ==> Combine(first, rest).error.name == rest.error.name
  {
  }

  /** A first entry with records and no site row is an unknown site of the list. */
  lemma FirstUnknown(sites: seq<SiteRow>, results: seq<(string, seq<Product>)>)
    requires results != [] && results[0].1 != [] && !Registered(sites, results[0].0)
    ensures UnknownSiteWithRecords(sites, results, results[0].0)
  {
  }

  /** Every site of a non-empty list is known when the first one and those after it are. */
  lemma AllSitesKnownCons(sites: seq<SiteRow>, results: seq<(string, seq<Product>)>)
    requires results != []
    ensures AllSitesKnown(sites, results) <==>
            (results[0].1 == [] || Registered(sites, results[0].0)) && AllSitesKnown(sites, results[1..])
  {
    var rest := results[1..];
    if (results[0].1 == [] || Registered(sites, results[0].0)) && AllSitesKnown(sites, rest) {
      forall j | 0 <= j < |results| && results[j].1 != [] ensures Registered(sites, results[j].0) {
        if j != 0 { assert results[j] == rest[j - 1]; }
      }
    }
    if AllSitesKnown(sites, results) {
      forall j | 0 <= j < |rest| && rest[j].1 != [] ensures Registered(sites, rest[j].0) {
        assert rest[j] == results[j + 1];
      }
    }
  }

  /** An unknown site with records after the first entry is one of the whole list. */
  lemma UnknownFromRest(sites: seq<SiteRow>, results: seq<(string, seq<Product>)>, name: string)
    requires results != []
    requires UnknownSiteWithRecords(sites, results[1..], name)
    ensures UnknownSiteWithRecords(sites, results, name)
  {
    var rest := results[1..];
    var j :| 0 <= j < |rest| && rest[j].0 == name && rest[j].1 != [];
    assert results[j + 1] == rest[j];
  }

  /**
   * The transaction commits exactly when every site with records is
   * registered and no statement is rejected; a site with an empty list
   * never causes an error, whether registered or not.
   */
  lemma SaveSearchOutcome(st: Store, term: string, timestamp: string, results: seq<(string, seq<Product>)>, failing: Option<nat>)
    ensures var out := SaveSearch(st, term, timestamp, results, failing);
            out.1.Success? <==>
              AllSitesKnown(st.sites, results) && (failing.None? || failing.value > TotalResults(results) + 2)
    ensures var out := SaveSearch(st, term, timestamp, results, failing);
            out.1.Failure? && out.1.error.SiteNotFound? ==> UnknownSiteWithRecords(st.sites, results, out.1.error.name)
    ensures var out := SaveSearch(st, term, timestamp, results, failing);
            failing.None? && !AllSitesKnown(st.sites, results) ==> out.1.Failure? && out.1.error.SiteNotFound?
    ensures var out := SaveSearch(st, term, timestamp, results, failing);
            AllSitesKnown(st.sites, results) && failing.Some? && failing.value <= TotalResults(results) + 2 ==>
              out.1 == Failure(StatementFailed(failing.value))
  {
    NewProductsSucceeds(st.sites, st.nextSearchId, results, st.nextProductId);
  }

  lemma {:induction false} TotalResultsConcat(a: seq<(string, seq<Product>)>, b: seq<(string, seq<Product>)>)
    ensures TotalResults(a + b) == TotalResults(a) + TotalResults(b)
  {
    if a != [] {
      assert (a + b)[1..] == a[1..] + b;
      TotalResultsConcat(a[1..], b);
    } else {
      assert a + b == b;
    }
  }

  /** How the product loop combines the rows of the first entry with those of the rest. */
  function Combine(first: Result<seq<ProductRow>, Halt>, rest: Result<seq<ProductRow>, Halt>): Result<seq<ProductRow>, Halt> {
    match first
    case Failure(h) => Failure(h)
    case Success(here) =>
      match rest
      case Failure(h) => Failure(Halt(h.name, |here| + h.inserted))
      case Success(tail) => Success(here + tail)
  }

  /** NewProducts looks at the first entry, then at the rest with the id count advanced by its length. */
  lemma NewProductsUnfold(sites: seq<SiteRow>, searchId: nat, x: seq<(string, seq<Product>)>, nextId: nat)
    requires x != []
    ensures NewProducts(sites, searchId, x, nextId)
            == Combine(EntryRows(sites, searchId, x[0], nextId), NewProducts(sites, searchId, x[1..], nextId + |x[0].1|))
  {
  }

  /** The rows of one entry carry consecutive ids, the search's id and the id of a registered site. */
  lemma EntryRowsShape(sites: seq<SiteRow>, searchId: nat, entry: (string, seq<Product>), nextId: nat)
    requires EntryRows(sites, searchId, entry, nextId).Success?
    ensures var rows := EntryRows(sites, searchId, entry, nextId).value;
            forall k :: 0 <= k < |rows| ==>
              rows[k].id == nextId + k && rows[k].searchId == searchId && HasSite(sites, rows[k].siteId)
  {
    if entry.1 != [] {
      var site := FindSite(sites, entry.0).value;
      assert site in sites;
    }
  }

  /**
   * Every row the product loop inserts carries the next consecutive id, the
   * new search's id and the id of a registered site.
   */
  lemma {:induction false} NewProductsShape(sites: seq<SiteRow>, searchId: nat, results: seq<(string, seq<Product>)>, nextId: nat)
    requires NewProducts(sites, searchId, results, nextId).Success?
    ensures var rows := NewProducts(sites, searchId, results, nextId).value;
            forall k :: 0 <= k < |rows| ==>
              rows[k].id == nextId + k && rows[k].searchId == searchId && HasSite(sites, rows[k].siteId)
  {
    if results != [] {
      NewProductsUnfold(sites, searchId, results, nextId);
      var here := EntryRows(sites, searchId, results[0], nextId).value;
      var n := nextId + |results[0].1|;
      var tail := NewProducts(sites, searchId, results[1..], n).value;
      EntryRowsShape(sites, searchId, results[0], nextId);
      NewProductsShape(sites, searchId, results[1..], n);
      var rows := here + tail;
      forall k | 0 <= k < |rows|
        ensures rows[k].id == nextId + k && rows[k].searchId == searchId && HasSite(sites, rows[k].siteId)
      {
        if k >= |here| { assert rows[k] == tail[k - |here|]; }
      }
    }
  }

  lemma NewProductsCongruent(sites: seq<SiteRow>, searchId: nat, x: seq<(string, seq<Product>)>, y: seq<(string, seq<Product>)>, nextId: nat)
    requires x != [] && y != [] && x[0] == y[0]
    requires NewProducts(sites, searchId, x[1..], nextId + |x[0].1|) == NewProducts(sites, searchId, y[1..], nextId + |x[0].1|)
    ensures NewProducts(sites, searchId, x, nextId) == NewProducts(sites, searchId, y, nextId)
  {
    var first := EntryRows(sites, searchId, x[0], nextId);
    var rest := NewProducts(sites, searchId, x[1..], nextId + |x[0].1|);
    assert rest == NewProducts(sites, searchId, y[1..], nextId + |y[0].1|);
    calc {
      NewProducts(sites, searchId, x, nextId);
      { NewProductsUnfold(sites, searchId, x, nextId); }
      Combine(first, rest);
      { NewProductsUnfold(sites, searchId, y, nextId); }
      NewProducts(sites, searchId, y, nextId);
    }
  }

  lemma {:induction false} NewProductsSkipsEmpty(sites: seq<SiteRow>, searchId: nat, a: seq<(string, seq<Product>)>,
                                                 name: string, b: seq<(string, seq<Product>)>, nextId: nat)
    ensures NewProducts(sites, searchId, a + [(name, [])] + b, nextId) == NewProducts(sites, searchId, a + b, nextId)
  {
    var e: (string, seq<Product>) := (name, []);
    var x := a + [e] + b;
    if a == [] {
      assert x == [e] + b && a + b == b;
      TailOfConcat([e], b);
      NewProductsUnfold(sites, searchId, x, nextId);
      CombineEmpty(NewProducts(sites, searchId, b, nextId));
    } else {
      TailOfConcat(a, [e]);
      TailOfConcat(a + [e], b);
      TailOfConcat(a, b);
      NewProductsSkipsEmpty(sites, searchId, a[1..], name, b, nextId + |a[0].1|);
      NewProductsCongruent(sites, searchId, x, a + b, nextId);
    }
  }

  lemma TailOfConcat<T>(a: seq<T>, b: seq<T>)
    requires a != []
    ensures (a + b)[0] == a[0] && (a + b)[1..] == a[1..] + b
  {
  }

  /** An entry with no rows leaves the rest of the loop's outcome as it is. */
  lemma CombineEmpty(rest: Result<seq<ProductRow>, Halt>)
    ensures Combine(Success([]), rest) == rest
  {
    if rest.Success? {
      assert [] + rest.value == rest.value;
    }
  }

  /** An empty list anywhere in the results is skipped: the save is the same without it. */
  lemma SaveSkipsEmptyList(st: Store, term: string, timestamp: string, a: seq<(string, seq<Product>)>,
                           name: string, b: seq<(string, seq<Product>)>, failing: Option<nat>)
    ensures SaveSearch(st, term, timestamp, a + [(name, [])] + b, failing) == SaveSearch(st, term, timestamp, a + b, failing)
  {
    NewProductsSkipsEmpty(st.sites, st.nextSearchId, a, name, b, st.nextProductId);
    TotalResultsConcat(a + [(name, [])], b);
    TotalResultsConcat(a, [(name, [])]);
    TotalResultsConcat(a, b);
    assert TotalResults([(name, [])]) == 0;
  }

  // ---------------------------------------------------------------------
  // saveSearch keeps the store well formed

  lemma NewRowsNumbered(rows: seq<ProductRow>, nextId: nat)
    requires 1 <= nextId
    requires forall k :: 0 <= k < |rows| ==> rows[k].id == nextId + k
    ensures Numbered(ProductIds(rows), nextId + |rows|)
    ensures forall k :: 0 <= k < |rows| ==> nextId <= ProductIds(rows)[k]
  {
  }

  lemma SavedRows(st: Store, term: string, timestamp: string, results: seq<(string, seq<Product>)>, failing: Option<nat>)
    requires SaveSearch(st, term, timestamp, results, failing).1.Success?
    ensures NewProducts(st.sites, st.nextSearchId, results, st.nextProductId).Success?
    ensures var rows := NewProducts(st.sites, st.nextSearchId, results, st.nextProductId).value;
            SaveSearch(st, term, timestamp, results, failing).0
            == st.(searches := st.searches + [SearchRow(st.nextSearchId, term, timestamp, TotalResults(results))],
                   products := st.products + rows,
                   nextSearchId := st.nextSearchId + 1,
                   nextProductId := st.nextProductId + |rows|)
  {
  }

  lemma SavedForeignKeys(st: Store, row: SearchRow, rows: seq<ProductRow>)
    requires ForeignKeys(st)
    requires forall k :: 0 <= k < |rows| ==> rows[k].searchId == row.id && HasSite(st.sites, rows[k].siteId)
    ensures ForeignKeys(st.(searches := st.searches + [row], products := st.products + rows))
  {
    var st' := st.(searches := st.searches + [row], products := st.products + rows);
    forall p | p in st'.products ensures HasSearch(st'.searches, p.searchId) && HasSite(st'.sites, p.siteId) {
      if p in st.products {
        var r :| r in st.searches && r.id == p.searchId;
        assert r in st'.searches;
      } else {
        var k :| 0 <= k < |rows| && rows[k] == p;
        assert row in st'.searches;
      }
    }
  }

  lemma AppendProductsNumbered(products: seq<ProductRow>, next: nat, rows: seq<ProductRow>)
    requires Numbered(ProductIds(products), next)
    requires forall k :: 0 <= k < |rows| ==> rows[k].id == next + k
    ensures Numbered(ProductIds(products + rows), next + |rows|)
  {
    ProductIdsConcat(products, rows);
    NewRowsNumbered(rows, next);
    NumberedConcat(ProductIds(products), next, ProductIds(rows), next + |rows|);
  }

  /** Appending one search row and its product rows, numbered from the next ids, keeps a store well formed. */
  lemma AppendSearchValid(st: Store, row: SearchRow, rows: seq<ProductRow>)
    requires Valid(st) && row.id == st.nextSearchId
    requires forall k :: 0 <= k < |rows| ==>
               rows[k].id == st.nextProductId + k && rows[k].searchId == row.id && HasSite(st.sites, rows[k].siteId)
    ensures Valid(st.(searches := st.searches + [row], products := st.products + rows,
                      nextSearchId := st.nextSearchId + 1, nextProductId := st.nextProductId + |rows|))
  {
    SearchIdsAppend(st.searches, row);
    NumberedAppend(SearchIds(st.searches), row.id);
    AppendProductsNumbered(st.products, st.nextProductId, rows);
    SavedForeignKeys(st, row, rows);
  }

  /** A committed save keeps ids fresh and increasing and every product pointing at its search and site. */
  lemma SaveSearchValid(st: Store, term: string, timestamp: string, results: seq<(string, seq<Product>)>, failing: Option<nat>)
    requires Valid(st)
    ensures Valid(SaveSearch(st, term, timestamp, results, failing).0)
  {
    if SaveSearch(st, term, timestamp, results, failing).1.Success? {
      SavedRows(st, term, timestamp, results, failing);
      NewProductsShape(st.sites, st.nextSearchId, results, st.nextProductId);
      AppendSearchValid(st, SearchRow(st.nextSearchId, term, timestamp, TotalResults(results)),
                        NewProducts(st.sites, st.nextSearchId, results, st.nextProductId).value);
    }
  }

  // ---------------------------------------------------------------------
  // Reading a saved search back

  /** The record as `getSearchResults` returns it after a save under site `name`. */
  function Restored(p: Product, name: string): (r: Product)
    ensures r.title == p.title && r.image == p.image && r.source == name
    ensures r.price == (if p.price == "" then PriceNotAvailable else p.price)
    ensures r.link == (if p.link == "" then MissingLink else p.link)
  {
    Product(p.title, StoredPrice(p), StoredLink(p), p.image, name)
  }

  function RestoredAll(records: seq<Product>, name: string): (r: seq<Product>)
    ensures |r| == |records| && forall k :: 0 <= k < |r| ==> r[k] == Restored(records[k], name)
  {
    if records == [] then [] else [Restored(records[0], name)] + RestoredAll(records[1..], name)
  }

  /** Every record saved under `name`, as it reads back, in save order. */
  function RecordsFor(results: seq<(string, seq<Product>)>, name: string): seq<Product> {
    if results == [] then []
    else (if results[0].0 == name then RestoredAll(results[0].1, name) else []) + RecordsFor(results[1..], name)
  }

  lemma {:induction false} SiteProductsConcat(a: seq<ProductRow>, b: seq<ProductRow>, searchId: int, site: SiteRow)
    ensures SiteProducts(a + b, searchId, site) == SiteProducts(a, searchId, site) + SiteProducts(b, searchId, site)
  {
    if a != [] {
      assert (a + b)[0] == a[0];
      assert (a + b)[1..] == a[1..] + b;
      SiteProductsConcat(a[1..], b, searchId, site);
    } else {
      assert a + b == b;
    }
  }

  lemma {:induction false} SiteProductsFresh(rows: seq<ProductRow>, searchId: int, site: SiteRow)
    requires forall p :: p in rows ==> p.searchId != searchId
    ensures SiteProducts(rows, searchId, site) == []
  {
    if rows != [] {
      assert rows[0] in rows;
      assert forall p :: p in rows[1..] ==> p in rows;
      SiteProductsFresh(rows[1..], searchId, site);
    }
  }

  lemma {:induction false} SiteProductsOfRows(searchId: nat, siteId: nat, records: seq<Product>, nextId: nat, site: SiteRow)
    ensures SiteProducts(ProductRows(searchId, siteId, records, nextId), searchId, site)
            == if siteId == site.id then RestoredAll(records, site.name) else []
  {
    if records != [] {
      var rows := ProductRows(searchId, siteId, records, nextId);
      var tail := ProductRows(searchId, siteId, records[1..], nextId + 1);
      assert rows[1..] == tail;
      SiteProductsOfRows(searchId, siteId, records[1..], nextId + 1, site);
    }
  }

  /** Site rows are determined by their id and by their name. */
  predicate DistinctSites(sites: seq<SiteRow>) {
    forall a, b :: a in sites && b in sites && (a.id == b.id || a.name == b.name) ==> a == b
  }

  lemma ValidDistinctSites(st: Store)
    requires Valid(st)
    ensures DistinctSites(st.sites)
  {
    forall a, b | a in st.sites && b in st.sites && (a.id == b.id || a.name == b.name) ensures a == b {
      SiteKeys(st, a, b);
    }
  }

  lemma NewProductsCons(sites: seq<SiteRow>, searchId: nat, results: seq<(string, seq<Product>)>, nextId: nat)
    requires results != [] && NewProducts(sites, searchId, results, nextId).Success?
    ensures EntryRows(sites, searchId, results[0], nextId).Success?
    ensures var here := EntryRows(sites, searchId, results[0], nextId).value;
            && NewProducts(sites, searchId, results[1..], nextId + |results[0].1|).Success?
            && NewProducts(sites, searchId, results, nextId).value
               == here + NewProducts(sites, searchId, results[1..], nextId + |results[0].1|).value
  {
  }

  lemma EntryRowsReadBack(sites: seq<SiteRow>, searchId: nat, entry: (string, seq<Product>), nextId: nat, site: SiteRow)
    requires DistinctSites(sites) && site in sites
    requires EntryRows(sites, searchId, entry, nextId).Success?
    ensures SiteProducts(EntryRows(sites, searchId, entry, nextId).value, searchId, site)
            == if entry.0 == site.name then RestoredAll(entry.1, site.name) else []
  {
    if entry.1 != [] {
      var s := FindSite(sites, entry.0).value;
      SiteProductsOfRows(searchId, s.id, entry.1, nextId, site);
      assert s.id == site.id <==> entry.0 == site.name;
    }
  }

  lemma RecordsForCons(results: seq<(string, seq<Product>)>, name: string)
    requires results != []
    ensures RecordsFor(results, name)
            == (if results[0].0 == name then RestoredAll(results[0].1, name) else []) + RecordsFor(results[1..], name)
  {
  }

  /** The rows one save inserts, read back for one site, are that site's records. */
  lemma {:induction false} NewProductsReadBack(sites: seq<SiteRow>, searchId: nat, results: seq<(string, seq<Product>)>, nextId: nat, site: SiteRow)
    requires DistinctSites(sites) && site in sites
    requires NewProducts(sites, searchId, results, nextId).Success?
    ensures SiteProducts(NewProducts(sites, searchId, results, nextId).value, searchId, site) == RecordsFor(results, site.name)
  {
    if results != [] {
      NewProductsCons(sites, searchId, results, nextId);
      RecordsForCons(results, site.name);
      var here := EntryRows(sites, searchId, results[0], nextId).value;
      var tail := NewProducts(sites, searchId, results[1..], nextId + |results[0].1|).value;
      NewProductsReadBack(sites, searchId, results[1..], nextId + |results[0].1|, site);
      SiteProductsConcat(here, tail, searchId, site);
      EntryRowsReadBack(sites, searchId, results[0], nextId, site);
    }
  }

  /** What a committed save stored for `site`, read back from the new store. */
  lemma SavedSiteProducts(st: Store, term: string, timestamp: string, results: seq<(string, seq<Product>)>, failing: Option<nat>, site: SiteRow)
    requires Valid(st) && site in st.sites
    requires SaveSearch(st, term, timestamp, results, failing).1.Success?
    ensures SiteProducts(SaveSearch(st, term, timestamp, results, failing).0.products, st.nextSearchId, site)
            == RecordsFor(results, site.name)
  {
    var id := st.nextSearchId;
    SavedRows(st, term, timestamp, results, failing);
    var rows := NewProducts(st.sites, id, results, st.nextProductId).value;
    SiteProductsConcat(st.products, rows, id, site);
    forall p | p in st.products ensures p.searchId != id {
      var r :| r in st.searches && r.id == p.searchId;
      SearchBelowNext(st, r);
    }
    SiteProductsFresh(st.products, id, site);
    ValidDistinctSites(st);
    NewProductsReadBack(st.sites, id, results, st.nextProductId, site);
  }

  lemma {:induction false} SiteProductsHolds(rows: seq<ProductRow>, searchId: int, site: SiteRow, p: ProductRow)
    requires p in rows && p.searchId == searchId && p.siteId == site.id
    ensures AsProduct(p, site.name) in SiteProducts(rows, searchId, site)
  {
    if rows[0] != p {
      assert p in rows[1..];
      SiteProductsHolds(rows[1..], searchId, site, p);
    }
  }

  /**
   * Every product row stored for a search is read back, under the key of
   * the site it references, with that site's name as source.
   */
  lemma StoredProductsAppear(st: Store, searchId: int, p: ProductRow)
    requires Valid(st) && GetSearchResults(st, searchId).Success?
    requires p in st.products && p.searchId == searchId
    ensures exists s :: s in st.sites && s.id == p.siteId
                        && ValueOf(GetSearchResults(st, searchId).value.results, s.name).Some?
                        && AsProduct(p, s.name) in ValueOf(GetSearchResults(st, searchId).value.results, s.name).value
  {
    assert HasSite(st.sites, p.siteId);
    var s :| s in st.sites && s.id == p.siteId;
    ValidDistinctSites(st);
    assert FindSite(st.sites, s.name) == Some(s);
    SiteProductsHolds(st.products, searchId, s, p);
  }

  /**
   * Round trip: reading back a committed save gives its search row, with
   * the total of all lists, and an object whose keys are the registered
   * site names, each once; under each name it holds exactly the records
   * saved under that name (as a multiset: the query fixes no order), with
   * the stored defaults and the site name as source. Sites that got no
   * records read back empty.
   */
  lemma SaveThenGet(st: Store, term: string, timestamp: string, results: seq<(string, seq<Product>)>, failing: Option<nat>)
    requires Valid(st)
    requires SaveSearch(st, term, timestamp, results, failing).1.Success?
    ensures var out := SaveSearch(st, term, timestamp, results, failing);
            var read := GetSearchResults(out.0, out.1.value);
            && read.Success?
            && read.value.search == SearchRow(out.1.value, term, timestamp, TotalResults(results))
            && |read.value.results| == |st.sites|
            && (forall j, k :: 0 <= j < k < |read.value.results| ==> read.value.results[j].0 != read.value.results[k].0)
            && (forall name :: ValueOf(read.value.results, name).Some? <==> Registered(st.sites, name))
            && forall name :: Registered(st.sites, name) ==>
                 multiset(ValueOf(read.value.results, name).value) == multiset(RecordsFor(results, name))
  {
    var out := SaveSearch(st, term, timestamp, results, failing);
    var st' := out.0;
    var id := st.nextSearchId;
    var row := SearchRow(id, term, timestamp, TotalResults(results));
    assert row in st'.searches;
    var found := FindSearch(st'.searches, id).value;
    if found in st.searches {
      SearchBelowNext(st, found);
    }
    assert found == row;
    var read := GetSearchResults(st', id);
    forall name | Registered(st.sites, name)
      ensures ValueOf(read.value.results, name).value == RecordsFor(results, name)
    {
      FindSiteRegistered(st.sites, name);
      SavedSiteProducts(st, term, timestamp, results, failing, FindSite(st.sites, name).value);
    }
  }

  // ---------------------------------------------------------------------
  // getRecentSearches

  /** The last |r| rows of the table are exactly the ones returned. */
  lemma RecentHoldsTail(st: Store, limit: int, i: nat)
    requires |st.searches| - |GetRecentSearches(st, limit)| <= i < |st.searches|
    ensures st.searches[i] in GetRecentSearches(st, limit)
  {
    var r := GetRecentSearches(st, limit);
    assert r[|st.searches| - 1 - i] == st.searches[i];
  }

  /**
   * The recent searches come newest first with strictly decreasing ids, and
   * they are the newest ones: every search left out is older than all of them.
   */
  lemma RecentSearchesNewestFirst(st: Store, limit: int)
    requires Valid(st)
    ensures var r := GetRecentSearches(st, limit);
            forall a, b :: 0 <= a < b < |r| ==> r[a].id > r[b].id
    ensures var r := GetRecentSearches(st, limit);
            forall row, k :: row in st.searches && row !in r && 0 <= k < |r| ==> row.id < r[k].id
  {
    RecentIdsDecrease(st, limit);
    RecentOmittedOlder(st, limit);
  }

  lemma RecentIdsDecrease(st: Store, limit: int)
    requires Valid(st)
    ensures var r := GetRecentSearches(st, limit);
            forall a, b :: 0 <= a < b < |r| ==> r[a].id > r[b].id
  {
    var r := GetRecentSearches(st, limit);
    var n := |st.searches|;
    var ids := SearchIds(st.searches);
    assert forall k :: 0 <= k < |r| ==> r[k] == st.searches[n - 1 - k];
    forall a, b | 0 <= a < b < |r| ensures r[a].id > r[b].id {
      assert ids[n - 1 - b] < ids[n - 1 - a];
    }
  }

  lemma RecentOmittedOlder(st: Store, limit: int)
    requires Valid(st)
    ensures var r := GetRecentSearches(st, limit);
            forall row, k :: row in st.searches && row !in r && 0 <= k < |r| ==> row.id < r[k].id
  {
    var r := GetRecentSearches(st, limit);
    var n := |st.searches|;
    var ids := SearchIds(st.searches);
    assert forall k :: 0 <= k < |r| ==> r[k] == st.searches[n - 1 - k];
    forall row, k | row in st.searches && row !in r && 0 <= k < |r| ensures row.id < r[k].id {
      var i :| 0 <= i < n && st.searches[i] == row;
      if n - |r| <= i {
        RecentHoldsTail(st, limit, i);
        assert false;
      }
      assert ids[i] < ids[n - 1 - k];
    }
  }

  lemma ReverseSnoc<T>(s: seq<T>, x: T)
    ensures Reverse(s + [x]) == [x] + Reverse(s)
  {
  }

  /**
   * A committed save puts its search row first in the recent list and
   * shifts the earlier ones down by one.
   */
  lemma RecentAfterSave(st: Store, term: string, timestamp: string, results: seq<(string, seq<Product>)>, failing: Option<nat>, limit: int)
    requires SaveSearch(st, term, timestamp, results, failing).1.Success?
    ensures var st' := SaveSearch(st, term, timestamp, results, failing).0;
            var row := SearchRow(st.nextSearchId, term, timestamp, TotalResults(results));
            GetRecentSearches(st', limit)
            == if limit == 0 then [] else [row] + GetRecentSearches(st, if limit > 0 then limit - 1 else limit)
  {
    var st' := SaveSearch(st, term, timestamp, results, failing).0;
    var row := SearchRow(st.nextSearchId, term, timestamp, TotalResults(results));
    ReverseSnoc(st.searches, row);
    if limit != 0 {
      var n := LimitCount(limit, |st'.searches|);
      var limit' := if limit > 0 then limit - 1 else limit;
      assert n == LimitCount(limit', |st.searches|) + 1;
      PrefixOfCons(row, Reverse(st.searches), n);
    }
  }

  lemma PrefixOfCons<T>(x: T, s: seq<T>, n: nat)
    requires 1 <= n <= |s| + 1
    ensures ([x] + s)[..n] == [x] + s[..n - 1]
  {
  }

  /** `getRecentSearches(1)` right after a save returns that save's row (tests/db.spec.js). */
  lemma LatestIsRecent(st: Store, term: string, timestamp: string, results: seq<(string, seq<Product>)>, failing: Option<nat>)
    requires SaveSearch(st, term, timestamp, results, failing).1.Success?
    ensures var out := SaveSearch(st, term, timestamp, results, failing);
            GetRecentSearches(out.0, 1) == [SearchRow(out.1.value, term, timestamp, TotalResults(results))]
  {
    RecentAfterSave(st, term, timestamp, results, failing, 1);
  }

  /**
   * `getRecentSearches()` without an argument returns the ten newest
   * searches, or all of them when there are fewer than ten.
   */
  lemma DefaultRecentSearches(st: Store)
    requires Valid(st)
    ensures var r := GetRecentSearches(st, DefaultRecentLimit);
            && |r| == (if |st.searches| < 10 then |st.searches| else 10)
            && forall row, k :: row in st.searches && row !in r && 0 <= k < |r| ==> row.id < r[k].id
  {
    RecentSearchesNewestFirst(st, DefaultRecentLimit);
  }
}
