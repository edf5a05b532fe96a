/**
 * One search run end to end: two configured sites, `A` and `B`, neither of
 * them in the selector registry. Site A's results page holds two
 * containers, one without a title and one for "RX-78-2 Gundam" at
 * "$45.00" with no link and no image; the request to site B gets no
 * response. The run, then the save of its results, then the read-back.
 */
module Scenario {
  import opened Wrappers
  import opened Text
  import opened UrlBuilder
  import opened Selectors
  import opened Extractor
  import opened Orchestrator
  import opened RunStore
  import opened RunStoreProperties
  import opened Seqs

  const UrlA := "https://a.example/search?q="
  const UrlB := "https://b.example/search?q="
  function Sites(): seq<(string, string)> { [("A", UrlA), ("B", UrlB)] }

  function Untitled(): Container { Container("", "", None, None) }
  function Gundam(): Container { Container("RX-78-2 Gundam", "$45.00", None, None) }
  function GundamRecord(): Product { Product("RX-78-2 Gundam", "$45.00", "#", "", "A") }

  /**
   * Site A's host answers with a page holding the two containers; nothing
   * else answers. Every per-site dump succeeds; the combined results file
   * cannot be written for a term holding `/`.
   */
  function World(): Env {
    Env(
      url => if StartsWith(url, UrlA) then Success("page of A") else Failure(NoResponse),
      (html, sel) => Some([Untitled(), Gundam()]),
      site => true,
      term => '/' !in term)
  }

  /** The search URL of A extends A's base URL; that of B does not. */
  lemma SearchUrls(term: string)
    ensures StartsWith(FormatSearchUrl("A", UrlA, term), UrlA)
    ensures !StartsWith(FormatSearchUrl("B", UrlB, term), UrlA)
  {
    BaseUrlShapes();
    FormatAfterTrailingEquals("A", UrlA, term);
    FormatAfterTrailingEquals("B", UrlB, term);
    HostsDiffer(FormatSearchUrl("B", UrlB, term));
  }

  lemma BaseUrlShapes()
    ensures '?' in UrlA && EndsWith(UrlA, "=")
    ensures '?' in UrlB && EndsWith(UrlB, "=")
  {
    assert UrlA[24] == '?' && UrlB[24] == '?';
  }

  /** Whatever follows B's base URL, the host already tells it apart from A's. */
  lemma HostsDiffer(url: string)
    requires |UrlB| <= |url| && url[..|UrlB|] == UrlB
    ensures !StartsWith(url, UrlA)
  {
    assert url[8] == UrlB[8] != UrlA[8];
  }

  /** Neither site is in the registry, so both are scraped with the default selectors. */
  lemma UnregisteredSites()
    ensures GetSiteSelectors("A") == DefaultSelectors
  {
    assert !IsRegistered("A") by { assert forall i :: 0 <= i < |Registry| ==> Registry[i].0 != "A"; }
  }

  lemma UntitledSkipped()
    ensures ExtractAll([Untitled()], DefaultSelectors, "A") == []
  {
    TrimKeepsTrimmed("");
    assert ExtractProduct(Untitled(), DefaultSelectors, "A") == None;
    assert [Untitled()][..0] == [];
  }

  lemma GundamFieldsTrimmed()
    ensures Trim("RX-78-2 Gundam") == "RX-78-2 Gundam"
    ensures Trim("$45.00") == "$45.00"
  {
    TrimKeepsTrimmed("RX-78-2 Gundam");
    TrimKeepsTrimmed("$45.00");
  }

  lemma GundamProduct()
    ensures ExtractProduct(Gundam(), DefaultSelectors, "A") == Some(GundamRecord())
  {
    GundamFieldsTrimmed();
  }

  lemma GundamKept()
    ensures ExtractAll([Gundam()], DefaultSelectors, "A") == [GundamRecord()]
  {
    GundamProduct();
    assert Emitted(Gundam(), DefaultSelectors, "A") == [GundamRecord()];
    assert [Gundam()][..0] == [];
  }

  /** The untitled container is skipped; the other gives the record with the defaults. */
  lemma PageOfA()
    ensures ExtractAll([Untitled(), Gundam()], DefaultSelectors, "A") == [GundamRecord()]
  {
    UntitledSkipped();
    GundamKept();
    ExtractAllAppend([Untitled()], [Gundam()], DefaultSelectors, "A");
    SingletonsConcat(Untitled(), Gundam());
  }

  lemma SiteOutcomes(term: string)
    ensures ScrapeOutcome(World(), "A", UrlA, term) == Success([GundamRecord()])
    ensures ScrapeOutcome(World(), "B", UrlB, term) == Failure(FetchFailed(NoResponse))
  {
    SearchUrls(term);
    UnregisteredSites();
    PageOfA();
  }

  /**
   * For any search term the loop gives A the one titled record, with link
   * `#`, empty image and source `A`, and gives B an empty list; the run
   * returns exactly that unless the combined write fails.
   */
  lemma RunBothSites(term: string)
    requires '/' !in term
    ensures ScrapeAllWebsites(World(), Sites(), term).Success?
    ensures ScrapeAllWebsites(World(), Sites(), term).value.results == RunResults()
  {
    SiteEntries(term);
    ScrapeAllWebsitesResults(World(), Sites(), term, "B", FetchFailed(NoResponse));
    var r := ScrapeAllWebsites(World(), Sites(), term).value.results;
    PairOf(r);
  }

  /**
   * A term such as `HG 1/144` gives a combined file name inside a missing
   * directory: the write raises and the whole run rejects, although the
   * loop had already logged that B did not respond.
   */
  lemma SlashTermRejects(term: string)
    requires '/' in term
    ensures ScrapeAllWebsites(World(), Sites(), term).Failure?
    ensures SiteFailed("B", FetchFailed(NoResponse)) in ScrapeAllWebsites(World(), Sites(), term).error.log
  {
    SiteOutcomes(term);
    ScrapeAllWebsitesResults(World(), Sites(), term, "B", FetchFailed(NoResponse));
    assert Sites()[1] == ("B", UrlB);
  }

  /** The entry each site gets: A keeps its record, B has none. */
  lemma SiteEntries(term: string)
    ensures SiteRecords(World(), ("A", UrlA), term) == [GundamRecord()]
    ensures SiteRecords(World(), ("B", UrlB), term) == []
  {
    SiteOutcomes(term);
  }

  /** The run logs that B did not respond. */
  lemma RunLogsB(term: string)
    ensures SiteFailed("B", FetchFailed(NoResponse)) in SiteLoop(World(), Sites(), term).log
  {
    SiteOutcomes(term);
    ScrapeAllLogsFailures(World(), Sites(), term, "B", FetchFailed(NoResponse));
    assert Sites()[1] == ("B", UrlB);
  }

  /** The database once both sites are registered. */
  function Configured(): Store {
    Store([], [SiteRow(1, "A", UrlA), SiteRow(2, "B", UrlB)], [], 1, 3, 1)
  }

  /** The two sites registered in a fresh database, in list order. */
  lemma Registration()
    ensures InitSites(EmptyStore, Sites()) == Configured()
  {
    var st1 := RegisterSite(EmptyStore, ("A", UrlA));
    assert st1.sites == [SiteRow(1, "A", UrlA)] && st1.nextSiteId == 2;
    assert !Registered(st1.sites, "B");
    assert Sites()[..1] == [("A", UrlA)] && Sites()[..1][..0] == [];
    assert InitSites(EmptyStore, Sites()[..1]) == st1;
  }

  function RunResults(): seq<(string, seq<Product>)> {
    [("A", [GundamRecord()]), ("B", [])]
  }

  function RowOfA(): ProductRow {
    ProductRow(1, 1, 1, "RX-78-2 Gundam", "$45.00", "#", "")
  }

  lemma RowsOfA()
    ensures EntryRows(Configured().sites, 1, ("A", [GundamRecord()]), 1) == Success([RowOfA()])
  {
    assert FindSite(Configured().sites, "A") == Some(SiteRow(1, "A", UrlA));
    assert [GundamRecord()][1..] == [];
    assert StoredPrice(GundamRecord()) == "$45.00" && StoredLink(GundamRecord()) == "#";
    assert ProductRows(1, 1, [GundamRecord()], 1) == [RowOfA()] + [];
    assert [RowOfA()] + [] == [RowOfA()];
  }

  lemma RowsOfRun()
    ensures NewProducts(Configured().sites, 1, RunResults(), 1) == Success([RowOfA()])
  {
    RowsOfA();
    var results := RunResults();
    assert results[1..][1..] == [];
    assert NewProducts(Configured().sites, 1, results[1..], 2) == Success([]);
    assert [RowOfA()] + [] == [RowOfA()];
  }

  /** The database after the save. */
  function Saved(term: string, timestamp: string): Store {
    Store([SearchRow(1, term, timestamp, 1)], Configured().sites, [RowOfA()], 2, 3, 2)
  }

  lemma SaveRun(term: string, timestamp: string)
    ensures SaveSearch(Configured(), term, timestamp, RunResults(), None) == (Saved(term, timestamp), Success(1))
  {
    RowsOfRun();
    assert TotalResults(RunResults()) == 1 by {
      assert RunResults()[1..][1..] == [];
    }
    var st := Configured();
    assert st.searches + [SearchRow(1, term, timestamp, 1)] == [SearchRow(1, term, timestamp, 1)];
    assert st.products + [RowOfA()] == [RowOfA()];
  }

  lemma ReadRun(term: string, timestamp: string)
    ensures GetSearchResults(Saved(term, timestamp), 1) == Success(StoredSearch(SearchRow(1, term, timestamp, 1), RunResults()))
  {
    var st := Saved(term, timestamp);
    assert FindSearch(st.searches, 1) == Some(SearchRow(1, term, timestamp, 1));
    assert SiteProducts([RowOfA()], 1, SiteRow(1, "A", UrlA)) == [GundamRecord()];
    assert SiteProducts([RowOfA()], 1, SiteRow(2, "B", UrlB)) == [];
    var g := Grouped(st.sites, st.products, 1);
    assert g[0] == RunResults()[0] && g[1] == RunResults()[1];
    assert g == RunResults();
  }

  /**
   * Saving the run's results in the freshly configured database stores one
   * search with id 1 and `total_results` 1, and reading it back gives the
   * run's results again.
   */
  lemma SaveAndReadBack(term: string, timestamp: string)
    requires '/' !in term
    ensures ScrapeAllWebsites(World(), Sites(), term).Success?
    ensures var st := InitSites(EmptyStore, Sites());
            var results := ScrapeAllWebsites(World(), Sites(), term).value.results;
            var out := SaveSearch(st, term, timestamp, results, None);
            && out.1 == Success(1)
            && out.0.searches == [SearchRow(1, term, timestamp, 1)]
            && GetSearchResults(out.0, 1) == Success(StoredSearch(SearchRow(1, term, timestamp, 1), results))
  {
    Registration();
    RunBothSites(term);
    SaveRun(term, timestamp);
    ReadRun(term, timestamp);
  }

  /**
   * A save whose first product insert (statement 2) is rejected rolls back:
   * the database keeps no search row and no product row of the attempt.
   */
  lemma RejectedInsertRollsBack(term: string, timestamp: string)
    ensures SaveSearch(Configured(), term, timestamp, RunResults(), Some(2)) == (Configured(), Failure(StatementFailed(2)))
    ensures Configured().searches == [] && Configured().products == []
  {
    RowsOfRun();
    assert TotalResults(RunResults()) == 1 by {
      assert RunResults()[1..][1..] == [];
    }
  }
}
