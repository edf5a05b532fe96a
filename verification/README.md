# Gunpla scraper core, modelled in Dafny

This project models the core of the Gunpla price scraper in Dafny. The scraper searches several hobby-shop sites for a term and keeps one list of product records per site. It stores each search run in SQLite. Three parts are modelled:

- **`server/utils.js`: the search-URL builder and the site selector registry.**
  - `formatSearchUrl` is modelled with its five ordered branches. `encodeURIComponent` is modelled on every Unicode scalar value: UTF-8 percent-encoding with upper-case hex digits. `String.prototype.replace` is modelled with a string pattern, including its `$` substitution patterns.
  - `getSiteSelectors` is modelled with the registry exactly as declared: five site entries plus `default`.
- **`server/scraper.js`: the scrape itself.**
  - The mapping from a page's product containers to records covers title and price trimming, the `Price not available` and `#` sentinels, and the join of relative links to the site's base URL.
  - `scrapeWebsite` downgrades every failure to an empty list.
  - `scrapeAllWebsites` visits the configured sites one after another, then writes the combined results file. If that write raises, the whole run rejects.
  - The network and the HTML selector engine are parameters of the model (`Orchestrator.Env`).
- **`server/db.js`: the run store.**
  - The `searches`, `sites` and `products` tables are an immutable `RunStore.Store` with AUTOINCREMENT counters.
  - `initSites`, `saveSearch`, `getSearchResults` and `getRecentSearches` are functions over that store.
  - `saveSearch` is one transaction. The statement SQLite rejects, if any, is an input. Any failure returns the store unchanged.

The modules follow the source:

| Module | Source |
|---|---|
| `Text` | the JavaScript string operations used |
| `UriEncoding` | `encodeURIComponent` and, as its partner, `decodeURIComponent` |
| `UrlBuilder` | `formatSearchUrl` |
| `Selectors` | `getSiteSelectors` |
| `Extractor` | the `.each` callback |
| `Orchestrator` | `scrapeWebsite`, `scrapeAllWebsites` |
| `RunStore`, `RunStoreProperties` | `server/db.js` |

`Scenario` follows one search end to end:

- Site A's page yields an untitled container and "RX-78-2 Gundam" at "$45.00". Site B does not respond.
- The result is `{A: [that record with link "#", image "", source "A"], B: []}`.
- Saving it stores `total_results` 1, and reading it back gives the same results.

Some behaviours of the code are easy to misread. The model keeps each of them as written:

- **Named-parameter sites.** For `p_bandai_usa`, `amazon` and `ebay` the encoded term is inserted right after the first occurrence of the key (`text=`, `k=`, `_nkw=`). Any value already after the key stays in place behind the term. The first occurrence can also sit inside a longer parameter name, as `k=` does in `rank=`. The code inserts the term after the key; it does not replace a value that is already there.
- **Relative links.** A link counts as absolute when it starts with `http`, not when it carries a URL scheme.
- **Blank titles.** A container is skipped when the concatenated text of all its title matches trims to nothing. This covers containers with no title node and those whose title is blank.
- **White space in URLs.** The builder adds no white space, but it copies the configured base URL verbatim. So `UrlBuilder.FormatAddsNoWhitespace` requires a white-space-free base URL.
- **Bare hosts.** A base URL without `?` gets the term appended with no separator. `UrlBuilder.BareHostExample` shows `https://testsite.comGundam`, where tests/utils.spec.js:11 expects `/search?q=Gundam`.

## Model

| member | source | states |
|---|---|---|
| Text.TrimStart | server/scraper.js:65-66 | the result is a suffix of the input; what was removed is all white space; the result does not start with white space |
| Text.TrimEnd | server/scraper.js:65-66 | the result is a prefix of the input; what was removed is all white space; the result does not end with white space |
| Text.Trim | server/scraper.js:65-66 | the trimmed text is no longer than the input and neither starts nor ends with ECMAScript white space |
| Text.TrimIsFactor | server/scraper.js:65-66 | the trimmed text is a factor of the input with only white space on either side of it |
| Text.TrimEmptyIff | server/scraper.js:65-75 | trimming gives the empty string exactly when the input is all white space (both directions) |
| Text.TrimKeepsTrimmed | server/scraper.js:65-66 | a string with no white space at either end is its own trim |
| Text.TrimIdempotent | server/scraper.js:65-66 | trimming twice is trimming once |
| Text.IndexOfFrom | server/utils.js:23 | the position found is an occurrence at or after the start, with none between; None means no occurrence at or after the start |
| Text.IndexOf | server/utils.js:23 | `indexOf` returns the first occurrence; None means the pattern occurs nowhere |
| Text.Substitute | server/utils.js:23-29 | the `$` patterns of `replace`; a replacement string without `$` is inserted literally (used through `Text.ReplaceFirstLiteral`) |
| Text.ReplaceFirst | server/utils.js:23-29 | `replace` with a string pattern changes the string only from the first occurrence of the pattern: the text before it and the text after the occurrence stay in place, and a string without the pattern comes back unchanged; `Text.ReplaceFirstLiteral` gives the full result for a `$`-free replacement |
| Text.ReplaceFirstLiteral | server/utils.js:23-29 | `replace` with a `$`-free replacement splices it in at the first occurrence only, and leaves the string unchanged when the pattern is absent |
| UriEncoding.EncodeUriComponent | server/utils.js:20 | every character of the encoding is unreserved or `%`, and every `%` is followed by two upper-case hex digits; `UriEncoding.DecodeEncode` is its round trip |
| UriEncoding.EncodedIsPlain | server/utils.js:20 | an encoded term holds no white space (a space becomes `%20`) and no `$` |
| UriEncoding.EncodeUnreservedIdentity | server/utils.js:39 | a term made of unreserved characters is sent as it is |
| UriEncoding.DecodeEncode | server/utils.js:20 | decoding the encoding of any term gives the term back (UTF-8 round trip) |
| UriEncoding.EncodeInjective | server/utils.js:20 | two different terms never give the same encoding |
| UrlBuilder.FormatSearchUrl | server/utils.js:15-41 | computes the URL only; its five branches are characterised by `UrlBuilder.FormatAfterTrailingEquals`, `UrlBuilder.FormatNamedParameter`, `UrlBuilder.FormatExtraQueryParameter` and `UrlBuilder.FormatPlainAppend`, and the whole builder by `UrlBuilder.FormatAddsNoWhitespace` |
| UrlBuilder.ParameterKey | server/utils.js:21-29 | no key of a named-parameter site contains `$`, so `replace` matches and inserts it literally |
| UrlBuilder.FormatAfterTrailingEquals | server/utils.js:17-20 | a base URL with `?` ending in `=` is kept as a prefix and followed by exactly the encoding of the term, which decodes back to the term, for every site name |
| UrlBuilder.FormatNamedParameter | server/utils.js:21-29 | for `p_bandai_usa`, `amazon`, `ebay`: without the key the URL is unchanged; with it exactly the encoding of the term (which decodes back to the term) is inserted right after the key's first occurrence, and every other base-URL character keeps its place |
| UrlBuilder.FormatExtraQueryParameter | server/utils.js:30-32 | any other base URL with `?` gets `&q=` and then exactly the encoding of the term appended, which decodes back to the term |
| UrlBuilder.FormatPlainAppend | server/utils.js:34-40 | a base URL without `?` gets exactly the encoding of the term appended, which decodes back to the term, whether or not it ends in `/` |
| UrlBuilder.FormatAddsNoWhitespace | server/utils.js:15-41 | a white-space-free base URL gives a white-space-free search URL, whatever the term |
| UrlBuilder.BareHostExample | server/utils.js:37-40 | `TestSite`, `https://testsite.com`, `Gundam` gives `https://testsite.comGundam` |
| Selectors.Lookup | server/utils.js:105 | an own entry is found exactly when the registry holds the name, and what is found is that name's entry |
| Selectors.RegistryNamesDistinct | server/utils.js:49-103 | no two registry entries share a name |
| Selectors.GetSiteSelectors | server/utils.js:104-106 | a registered name yields its own entry and any other name yields the `default` entry; `Selectors.SelectorsWellFormed` states what every result holds |
| Selectors.SelectorsWellFormed | server/utils.js:51-100 | every entry has a non-empty container selector; exactly `az_toy_hobby` and `gundam_galaxy` carry a (non-empty) base URL |
| Selectors.SelectorsAsWritten | server/utils.js:105 | `selectors[name] \|\| selectors.default` as written: registered names and ordinary unregistered names behave like the registry lookup |
| Selectors.InheritedNameEscapesFallback | server/utils.js:105 | for the site name `constructor` the expression yields an inherited Object member, not the `default` entry |
| Extractor.ResolveLink | server/scraper.js:71-79 | the stored link is never empty |
| Extractor.ExtractProduct | server/scraper.js:64-83 | an emitted record has a non-empty title, price and link and names the site as its source |
| Extractor.ExtractAll | server/scraper.js:62-84 | a page yields at most one record per container, each titled and sourced from the site |
| Extractor.ExtractProductTitle | server/scraper.js:65-75 | a container yields a record exactly when its title text is not all white space, and the title is that text trimmed |
| Extractor.ExtractProductPrice | server/scraper.js:66-78 | a blank price gives `Price not available`; any other price is kept trimmed |
| Extractor.ExtractProductDefaults | server/scraper.js:67-80 | an absent or empty href gives `#`; an absent or empty src gives the empty image; a src is otherwise kept |
| Extractor.ResolveLinkKeepsAbsolute | server/scraper.js:71 | a link starting with `http`, or any link on a site without base URL, is kept unchanged |
| Extractor.ResolveLinkSingleSeparator | server/scraper.js:71-73 | `/p` and `p` both join to `base/p`: exactly one separator |
| Extractor.ExtractAllAppend | server/scraper.js:64-84 | the records of two runs of containers are those of each run, in container order |
| Extractor.ExtractAllSingle | server/scraper.js:75-83 | one container gives one record or none, exactly as its title is blank or not |
| Extractor.ExtractAllFromContainers | server/scraper.js:64-83 | every record is the record of some container of the page |
| Extractor.ScrapeContainers | server/scraper.js:62-84 | the `.each` loop pushes exactly the records of the extraction, in order |
| Orchestrator.ScrapeOutcome | server/scraper.js:20-92 | a successful scrape yields only titled records sourced from the site |
| Orchestrator.ScrapeWebsite | server/scraper.js:38-91 | every fetch failure kind and every other exception gives the empty list; records are titled and sourced from the site |
| Orchestrator.SiteLog | server/scraper.js:39-51 | a site's failure is logged with its kind exactly when its scrape failed that way |
| Orchestrator.RunAll | server/scraper.js:103-120 | the loop produces one entry per configured site |
| Orchestrator.RunAllPerSite | server/scraper.js:103-120 | entry i of the run is site i with exactly what its own step produced |
| Orchestrator.RunAllLog | server/scraper.js:103-120 | the run's log is exactly the union of the sites' own log lines |
| Orchestrator.SiteLoop | server/scraper.js:100-120 | the loop produces one entry per configured site |
| Orchestrator.ScrapeAllWebsites | server/scraper.js:99-130 | the run resolves exactly when the combined results file can be written, and then it has one entry per configured site |
| Orchestrator.ScrapeAllWebsitesResults | server/scraper.js:99-130 | a resolved run maps each configured site, in list order, to the records scraped for it; a rejected run has still printed a failure line for exactly the sites whose scrape failed, with the failure kind |
| Orchestrator.ScrapeAllPerSite | server/scraper.js:103-120 | each site is visited once, in list order, and its entry depends on that site alone |
| Orchestrator.ScrapeAllFailuresAreEmpty | server/scraper.js:104-119 | a failed site gets an empty list without stopping later sites; kept records carry their site as source |
| Orchestrator.ScrapeAllLogsFailures | server/scraper.js:38-53 | a site is logged as failed with a kind exactly when its scrape failed with that kind |
| Orchestrator.RunSites | server/scraper.js:99-130 | the sequential loop and then the combined write compute exactly the run: its results and log, or its rejection |
| RunStore.FindSite | server/db.js:196-206 | the site found has the name asked for; None means no row has that name |
| RunStore.FindSearch | server/db.js:260-270 | the search row found has the id asked for; None means no row has that id |
| RunStore.RegisterSite | server/db.js:139-141 | `INSERT OR IGNORE` into an AUTOINCREMENT table: a known name adds no row, a new one is appended with the next id, and the id sequence advances by one either way |
| RunStore.InitSites | server/db.js:132-152 | existing site rows are kept as a prefix, the other tables are untouched, and each list entry uses up one site id |
| RunStore.StoredPrice | server/db.js:217 | the stored price is never empty and keeps a non-empty price |
| RunStore.StoredLink | server/db.js:218 | the stored link is never empty and keeps a non-empty link |
| RunStore.ProductRows | server/db.js:209-227 | one row per record, consecutive ids, the search and site ids, and the defaulted fields |
| RunStore.EntryRows | server/db.js:193-227 | an empty list inserts nothing; otherwise one row per record, or `Site not found` for an unknown site |
| RunStore.NewProducts | server/db.js:192-228 | when the loop completes it inserts as many rows as the lists hold records; when it stops, the rows that went in before the stop are no more than that |
| RunStore.SaveSearch | server/db.js:160-248 | a failure leaves the store unchanged; a commit appends one search row with the next id and the total, and one product row per record |
| RunStore.SiteProducts | server/db.js:273-315 | each product read back for a site carries that site's name as source |
| RunStore.Grouped | server/db.js:301-315 | one entry per site row, holding that site's products (the model lists them in row order; see Left out) |
| RunStore.ValueOfKeys | server/db.js:301-315 | `results[name]` on the results object has a value exactly when some entry has `name` as key, and the value is that entry's records |
| RunStore.ValueOfGrouped | server/db.js:301-315 | looking a name up in the results object finds the products of the site of that name, and nothing for a name no site has |
| RunStore.GetSearchResults | server/db.js:255-324 | `Search not found` exactly for an id with no row; otherwise that row and an object whose keys are exactly the registered site names, each once when names are unique, each holding the search's products of that site with the site as source |
| RunStore.GetRecentSearches | server/db.js:331-351 | at most `limit` rows, all of them search rows |
| RunStoreProperties.SiteKeys | server/db.js:54-62 | in a well-formed store a site row is determined by its id and by its name |
| RunStoreProperties.SearchBelowNext | server/db.js:43-48 | every search id is below the next AUTOINCREMENT id |
| RunStoreProperties.RegisterSiteValid | server/db.js:139-141 | registering a site keeps the store well formed |
| RunStoreProperties.InitSitesValid | server/db.js:132-152 | `initSites` keeps ids increasing and fresh, names unique, foreign keys intact |
| RunStoreProperties.InitSitesRegisters | server/db.js:137-147 | after `initSites` every listed name has a site row |
| RunStoreProperties.InitSitesNoop | server/db.js:137-147 | inserting only names already present adds no row and changes no table; only the site id sequence moves on, by one per name |
| RunStoreProperties.InitSitesIdempotent | server/db.js:132-152 | a second `initSites` with the same list adds no rows and only advances the site id sequence by the list's length |
| RunStoreProperties.RestartSkipsIds | server/db.js:132-152 | with A and B stored, registering A, B and C again gives C the id 5 |
| RunStoreProperties.InitSitesExample | tests/db.spec.js:39-55 | one configured site is stored with its name, base URL and id 1 |
| RunStoreProperties.NewProductsShape | server/db.js:192-227 | every inserted row carries the next consecutive id, the new search's id and the id of a registered site |
| RunStoreProperties.NewProductsSucceeds | server/db.js:192-206 | the product loop completes exactly when every site with records is registered; otherwise it stops at such a site |
| RunStoreProperties.SaveSearchOutcome | server/db.js:160-248 | the save commits exactly when every site with records is registered and no statement is rejected; which error is raised otherwise |
| RunStoreProperties.SaveSkipsEmptyList | server/db.js:193 | an empty list under any name, registered or not, changes nothing about the save |
| RunStoreProperties.SaveSearchValid | server/db.js:179-236 | a save keeps the store well formed |
| RunStoreProperties.NewProductsReadBack | server/db.js:192-227 | the rows a save inserts, read back for one site, are exactly the records saved under that site's name |
| RunStoreProperties.SavedSiteProducts | server/db.js:273-315 | after a save, the new search's products for a site are exactly the records saved under its name |
| RunStoreProperties.StoredProductsAppear | server/db.js:307-315 | every product row of a search is read back under the key of the site it references |
| RunStoreProperties.SaveThenGet | server/db.js:255-324 | reading back a committed save gives its row with the total, and an object whose keys are exactly the registered site names, each once, holding the records saved under that name |
| RunStoreProperties.RecentSearchesNewestFirst | server/db.js:336-341 | recent searches come in strictly decreasing id order and every search left out is older than all returned |
| RunStoreProperties.RecentAfterSave | server/db.js:180-189 | a committed save puts its row first in the recent list, ahead of the earlier ones |
| RunStoreProperties.LatestIsRecent | tests/db.spec.js:91-95 | `getRecentSearches(1)` right after a save returns that save's row |
| RunStoreProperties.DefaultRecentSearches | server/db.js:331-341 | without an argument, the ten newest searches are returned, or all of them when there are fewer |
| Scenario.SiteOutcomes | server/scraper.js:20-92 | site A yields the one titled record; site B fails with no response |
| Scenario.RunBothSites | server/scraper.js:99-130 | for a term without `/` the run resolves, giving A the record with link `#`, empty image and source `A`, and B an empty list |
| Scenario.SlashTermRejects | server/scraper.js:122-129 | a term holding `/` makes the combined write fail, so the run rejects after logging that B did not respond |
| Scenario.RunLogsB | server/scraper.js:44-47 | the loop logs that B did not respond |
| Scenario.Registration | server/db.js:132-152 | the two sites are registered with ids 1 and 2 |
| Scenario.SaveAndReadBack | server/db.js:160-324 | saving the run stores search 1 with total 1 and reads back as the run's results |
| Scenario.RejectedInsertRollsBack | server/db.js:239-244 | a rejected product insert leaves no search and no product row of the attempt |

## Left out

- HTTP requests, browser headers, timeouts and redirects are not modelled. A fetch is an oracle in `Orchestrator.Env` that returns a page or one of three failure kinds: an error status, no response, or a setup error.
- The cheerio selector engine is not modelled. A container arrives with its title and price text and its first `href` and `src`. A page whose parsing or selection raises is `None` from the oracle.
- The per-site JSON dump is reduced to whether it succeeds (`Env.dumpOk`). A failed dump resets that site to `[]` and is logged. The dump's contents are not modelled.
- The combined results file at server/scraper.js:122-127 is reduced to whether writing it succeeds (`Env.combinedDumpOk`, a function of the term). Its name and contents are not modelled.
- The 2-second delay between sites has no effect on the returned results and is left out.
- The timestamp of a search is an input string; the clock is not modelled.
- `saveToJson`, `ensureDataDir`, `initDatabase`, `getDb`, `closeDb` and the sqlite callback machinery are not modelled. The schema appears only as the row datatypes and `RunStore.Valid`.
- A failure to open or close the database is not modelled, and nor is a failure of a read query (`SELECT`). Only a rejected statement inside the save transaction is an input.
- A site name inherited from Object.prototype would also collide with the property lookups of the results objects. Outside the registry finding, the model treats site names as plain map keys.
- Orchestrator.ScrapeOutcome: scrapes every site with the corrected lookup (`Selectors.GetSiteSelectors`, whose contract states the fallback), not the lookup as written at server/utils.js:105. With the lookup as written, a configured site named after an Object.prototype member such as `constructor` gets a value with no `container` selector. `$(undefined)` then selects nothing, so the source yields `[]` for that site where the model scrapes it with the `default` selectors. The as-written lookup is `Selectors.SelectorsAsWritten` (see Findings).
- UriEncoding.EncodeUriComponent: Dafny characters are Unicode scalar values, so a lone surrogate cannot occur in a term. In the source such a term makes `encodeURIComponent` throw a URIError, which the catch at server/scraper.js:88-91 turns into `[]` for every site. That path is not modelled.
- The front ends (index.js, server/cli.js, server/web.js) are user interface and I/O.
- RunStoreProperties.SaveThenGet states each site's entry as a multiset. The query at server/db.js:275-278 has no ORDER BY. The model reads rows back in rowid order, but no lemma relies on that order.
- RunStore.Grouped lists the keys of the results object in `sites` row order. The source's order is whatever SQLite returns for `SELECT name FROM sites` at server/db.js:291-299, which has no ORDER BY; SQLite answers it from the index of the UNIQUE `name` column, so in name order. JavaScript then puts integer-like keys first. The model does not promise any key order: `RunStore.GetSearchResults` and `RunStoreProperties.SaveThenGet` state the keys and their values through `RunStore.ValueOf`, a lookup by name.
- RunStore.GetSearchResults: states which keys the results object has and what each holds, not in which order the keys come; see the `RunStore.Grouped` line.
- RunStoreProperties.SaveThenGet: likewise states the keys of the read-back object and their records, not the key order.
- RunStore.GetRecentSearches models `ORDER BY id DESC` as the reverse of row order. That is the id order only in a well-formed store, so its ordering lemma requires `RunStore.Valid`. Every operation preserves that invariant.
- RunStore.GetRecentSearches is read-only: it is a function of the store, so repeated calls give identical results. No separate lemma states this.

## Findings

| source | as written | input that shows it | evidently intended | confidence | as-written member | corrected member |
|---|---|---|---|---|---|---|
| server/utils.js:105 | `selectors[siteName] \|\| selectors.default` also finds members every object inherits from Object.prototype | site name `constructor` yields Object's constructor function, which has no `container` selector, instead of the `default` entry | every name without its own registry entry gets the `default` selectors | not executed | Selectors.SelectorsAsWritten | Selectors.GetSiteSelectors |
