/**
 * The per-site scrape (`scrapeWebsite`) and the sequential run over every
 * configured site (`scrapeAllWebsites`), server/scraper.js.
 *
 * The network and the HTML/selector engine are parameters (`Env`): the
 * fetch of a URL either yields the page or one of the three request-failure
 * kinds, and the selector engine either yields the page's containers for a
 * selector set or raises. Every failure ends as an empty list for that site.
 */
module Orchestrator {
  import opened Wrappers
  import opened UrlBuilder
  import opened Selectors
  import opened Extractor

  /** The three ways the HTTP request of a site can fail. */
  datatype FetchFailure =
    | HttpError(status: int)   // a response came back with a status outside 2xx
    | NoResponse               // the request went out and nothing came back
    | RequestSetupError        // the request could not even be set up

  /** Why a site's scrape produced no records. */
  datatype ScrapeFailure =
    | FetchFailed(kind: FetchFailure)
    | ScrapeError              // any other exception while parsing or extracting

  /** The failure lines the run prints, in order (progress lines are not modelled). */
  datatype LogEntry =
    | SiteFailed(site: string, failure: ScrapeFailure)
    | DumpFailed(site: string)  // writing the site's JSON dump raised

  /**
   * The outside world of a run: the page fetched for a URL, the containers
   * the selector engine finds on a page (None when it raises), whether
   * writing a site's JSON dump succeeds, and whether writing the combined
   * results file of a search term succeeds (its name embeds the term, so a
   * term holding `/` names a directory that may not exist).
   */
  datatype Env = Env(
    fetch: string -> Result<string, FetchFailure>,
    select: (string, SiteSelectors) -> Option<seq<Container>>,
    dumpOk: string -> bool,
    combinedDumpOk: string -> bool)

  /** The records of one site, or why there are none. */
  function ScrapeOutcome(env: Env, siteName: string, baseUrl: string, term: string): (r: Result<seq<Product>, ScrapeFailure>)
    ensures r.Success? ==> forall k :: 0 <= k < |r.value| ==> r.value[k].source == siteName && r.value[k].title != ""
  {
    var url := FormatSearchUrl(siteName, baseUrl, term);
    match env.fetch(url)
    case Failure(kind) => Failure(FetchFailed(kind))
    case Success(html) =>
      var sel := GetSiteSelectors(siteName);
      match env.select(html, sel)
      case None => Failure(ScrapeError)
      case Some(containers) => Success(ExtractAll(containers, sel, siteName))
  }

  /** `scrapeWebsite`: never fails, a failed site has no records. */
  function ScrapeWebsite(env: Env, siteName: string, baseUrl: string, term: string): (r: seq<Product>)
    ensures ScrapeOutcome(env, siteName, baseUrl, term).Failure? ==> r == []
    ensures forall k :: 0 <= k < |r| ==> r[k].source == siteName && r[k].title != ""
  {
    ScrapeOutcome(env, siteName, baseUrl, term).GetOr([])
  }

  /**
   * The result object of a run, as (site, records) pairs in insertion order,
   * and the console log of the run.
   */
  datatype Report = Report(results: seq<(string, seq<Product>)>, log: seq<LogEntry>)

  /** What visiting one site contributes: the list stored for it and its log lines. */
  datatype SiteRun = SiteRun(records: seq<Product>, log: seq<LogEntry>)

  /** The sequential loop over the sites, for any per-site step. */
  function RunAll(visit: ((string, string)) -> SiteRun, urlList: seq<(string, string)>): (rep: Report)
    ensures |rep.results| == |urlList|
  {
    if urlList == [] then Report([], [])
    else
      var rep := RunAll(visit, urlList[..|urlList| - 1]);
      var site := urlList[|urlList| - 1];
      var v := visit(site);
      Report(rep.results + [(site.0, v.records)], rep.log + v.log)
  }

  /** Every site gets exactly the entry its own step produced, in list order. */
  lemma {:induction false} RunAllPerSite(visit: ((string, string)) -> SiteRun, urlList: seq<(string, string)>)
    ensures forall i :: 0 <= i < |urlList| ==>
              RunAll(visit, urlList).results[i] == (urlList[i].0, visit(urlList[i]).records)
  {
    if urlList != [] {
      var init := urlList[..|urlList| - 1];
      RunAllPerSite(visit, init);
      var r := RunAll(visit, urlList).results;
      var r0 := RunAll(visit, init).results;
      forall i | 0 <= i < |urlList|
        ensures r[i] == (urlList[i].0, visit(urlList[i]).records)
      {
        if i < |init| {
          assert r[i] == r0[i];
          assert urlList[i] == init[i];
        }
      }
    }
  }

  /** One more iteration of the loop extends the run by that site's entry and log lines. */
  lemma RunAllStep(visit: ((string, string)) -> SiteRun, urlList: seq<(string, string)>, i: nat)
    requires i < |urlList|
    ensures var rep := RunAll(visit, urlList[..i]);
            RunAll(visit, urlList[..i + 1])
              == Report(rep.results + [(urlList[i].0, visit(urlList[i]).records)], rep.log + visit(urlList[i]).log)
  {
    assert urlList[..i + 1][..i] == urlList[..i];
  }

  /** The log of the run is made of the sites' own log lines, and holds all of them. */
  lemma {:induction false} RunAllLog(visit: ((string, string)) -> SiteRun, urlList: seq<(string, string)>, e: LogEntry)
    ensures e in RunAll(visit, urlList).log <==> exists i :: 0 <= i < |urlList| && e in visit(urlList[i]).log
  {
    if urlList != [] {
      var init := urlList[..|urlList| - 1];
      var last := urlList[|urlList| - 1];
      RunAllLog(visit, init, e);
      assert RunAll(visit, urlList).log == RunAll(visit, init).log + visit(last).log;
      if exists i :: 0 <= i < |init| && e in visit(init[i]).log {
        var i :| 0 <= i < |init| && e in visit(init[i]).log;
        assert urlList[i] == init[i];
      }
      if exists i :: 0 <= i < |urlList| && e in visit(urlList[i]).log {
        var i :| 0 <= i < |urlList| && e in visit(urlList[i]).log;
        if i < |init| { assert init[i] == urlList[i]; }
      }
    }
  }

  /** The log lines one site produces. */
  function SiteLog(env: Env, site: (string, string), term: string): (log: seq<LogEntry>)
    ensures forall name, f :: SiteFailed(name, f) in log <==>
              name == site.0 && ScrapeOutcome(env, site.0, site.1, term) == Failure(f)
  {
    var outcome := ScrapeOutcome(env, site.0, site.1, term);
    (if outcome.Failure? then [SiteFailed(site.0, outcome.error)] else [])
    + (if env.dumpOk(site.0) then [] else [DumpFailed(site.0)])
  }

  /**
   * The records a run keeps for one site: those `scrapeWebsite` returned,
   * unless writing the site's JSON dump raised, which resets them to empty.
   */
  function SiteRecords(env: Env, site: (string, string), term: string): seq<Product> {
    if env.dumpOk(site.0) then ScrapeWebsite(env, site.0, site.1, term) else []
  }

  /** One iteration of the run. */
  function Visit(env: Env, term: string, site: (string, string)): SiteRun {
    SiteRun(SiteRecords(env, site, term), SiteLog(env, site, term))
  }

  /** The loop of `scrapeAllWebsites`: visit the configured sites one after another. */
  function SiteLoop(env: Env, urlList: seq<(string, string)>, term: string): (rep: Report)
    ensures |rep.results| == |urlList|
  {
    RunAll(site => Visit(env, term, site), urlList)
  }

  /**
   * A run that rejects: writing the combined results file raised outside
   * every `try`, after the loop had printed its log lines.
   */
  datatype RunFailure = CombinedDumpFailed(log: seq<LogEntry>)

  /**
   * `scrapeAllWebsites`: the loop, then the write of the combined results
   * file; if that write raises, the returned promise rejects and no results
   * reach the caller.
   */
  function ScrapeAllWebsites(env: Env, urlList: seq<(string, string)>, term: string): (r: Result<Report, RunFailure>)
    ensures r.Success? <==> env.combinedDumpOk(term)
    ensures r.Success? ==> |r.value.results| == |urlList|
  {
    var rep := SiteLoop(env, urlList, term);
    if env.combinedDumpOk(term) then Success(rep) else Failure(CombinedDumpFailed(rep.log))
  }

  /**
   * What a caller of `scrapeAllWebsites` sees. A resolved run maps every
   * configured site, in list order, to the records scraped for it. A
   * rejected run has still printed a failure line for exactly the sites
   * whose scrape failed, each with its failure kind.
   */
  lemma ScrapeAllWebsitesResults(env: Env, urlList: seq<(string, string)>, term: string, name: string, f: ScrapeFailure)
    ensures var r := ScrapeAllWebsites(env, urlList, term);
            r.Success? ==> forall i :: 0 <= i < |urlList| ==>
                             r.value.results[i] == (urlList[i].0, SiteRecords(env, urlList[i], term))
    ensures var r := ScrapeAllWebsites(env, urlList, term);
            r.Failure? ==> (SiteFailed(name, f) in r.error.log <==>
                              exists i :: 0 <= i < |urlList| && urlList[i].0 == name
                                          && ScrapeOutcome(env, urlList[i].0, urlList[i].1, term) == Failure(f))
  {
    ScrapeAllPerSite(env, urlList, term);
    ScrapeAllLogsFailures(env, urlList, term, name, f);
  }

  /**
   * The run visits every configured site exactly once and in order, and the
   * entry of each site depends on that site alone: a failure elsewhere never
   * changes it.
   */
  lemma ScrapeAllPerSite(env: Env, urlList: seq<(string, string)>, term: string)
    ensures var rep := SiteLoop(env, urlList, term);
            forall i :: 0 <= i < |urlList| ==>
              rep.results[i] == (urlList[i].0, SiteRecords(env, urlList[i], term))
  {
    RunAllPerSite(site => Visit(env, term, site), urlList);
  }

  /**
   * Failure isolation: a site whose fetch or extraction fails gets an empty
   * list, and every record kept for a site names that site as its source.
   */
  lemma ScrapeAllFailuresAreEmpty(env: Env, urlList: seq<(string, string)>, term: string)
    ensures var rep := SiteLoop(env, urlList, term);
            forall i :: 0 <= i < |urlList| ==>
              && rep.results[i].0 == urlList[i].0
              && (ScrapeOutcome(env, urlList[i].0, urlList[i].1, term).Failure? ==> rep.results[i].1 == [])
              && (forall k :: 0 <= k < |rep.results[i].1| ==> rep.results[i].1[k].source == urlList[i].0)
  {
    ScrapeAllPerSite(env, urlList, term);
  }

  /** Every failed site is logged with its failure kind, and nothing else is logged as failed. */
  lemma ScrapeAllLogsFailures(env: Env, urlList: seq<(string, string)>, term: string, name: string, f: ScrapeFailure)
    ensures SiteFailed(name, f) in SiteLoop(env, urlList, term).log <==>
            exists i :: 0 <= i < |urlList| && urlList[i].0 == name
                        && ScrapeOutcome(env, urlList[i].0, urlList[i].1, term) == Failure(f)
  {
    var visit := site => Visit(env, term, site);
    RunAllLog(visit, urlList, SiteFailed(name, f));
    assert forall i :: 0 <= i < |urlList| ==> visit(urlList[i]).log == SiteLog(env, urlList[i], term);
  }

  /**
   * `scrapeAllWebsites` step by step: the `for ... of Object.entries(urlList)`
   * loop, one site at a time, then the combined write. The courtesy delay
   * between sites has no observable effect on the result.
   */
  method RunSites(env: Env, urlList: seq<(string, string)>, term: string) returns (r: Result<Report, RunFailure>)
    ensures r == ScrapeAllWebsites(env, urlList, term)
    ensures r.Success? ==> |r.value.results| == |urlList|
    ensures r.Success? ==> forall i :: 0 <= i < |urlList| ==> r.value.results[i].0 == urlList[i].0
  {
    var results, log := [], [];
    var i := 0;
    while i < |urlList|
      invariant 0 <= i <= |urlList|
      invariant Report(results, log) == SiteLoop(env, urlList[..i], term)
    {
      var v := Visit(env, term, urlList[i]);
      RunAllStep(site => Visit(env, term, site), urlList, i);
      results := results + [(urlList[i].0, v.records)];
      log := log + v.log;
      i := i + 1;
    }
    assert urlList[..|urlList|] == urlList;
    ScrapeAllPerSite(env, urlList, term);
    if env.combinedDumpOk(term) {
      r := Success(Report(results, log));
    } else {
      r := Failure(CombinedDumpFailed(log));
    }
  }
}
