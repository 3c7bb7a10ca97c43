# Dividend pipeline, modelled in Dafny

This project models the core of a Spring application that tracks stock
dividends. The application has four parts:

- **Scraper.** It reads a company's summary page to resolve a ticker to a
  company, and reads the dividend-history table into dated amounts.
- **Scheduled re-scrape.** It walks every stored company and inserts each
  dividend not yet stored for that company and date. On completion it
  evicts the whole finance cache.
- **Company service.** It creates companies with their dividends, deletes
  them, looks names up in an autocomplete trie, and searches names by
  prefix, ignoring case.
- **Finance service.** It answers "dividends of company *n*" from a cache
  keyed by company name, and falls back to the database on a miss.

The network, the HTML library, the database, the Redis cache and the trie are
replaced by plain values:

- An `Upstream` value maps a ticker to a history page and a summary page.
  A page is "unreachable", or has tables, heading texts and row texts.
- Repositories are classes holding a `seq` of rows and an identity counter.
- The cache is a class holding a `map` from company name to result.
- The trie is a class holding a `set` of keys.

Every exception the core raises becomes a `Failure` value returned in a
`Result`. This includes the unchecked ones:

- an index out of bounds on a short row;
- `NumberFormatException` from `Integer.parseInt`;
- `DateTimeException` from `LocalDateTime.of`;
- the `NullPointerException` of a missing title.

So the row parser has no precondition. A malformed row is an error case
with the same outcome as in the source. The Java library pieces the parser
depends on are written out exactly:

- `String.trim`;
- `split(" ")`: a string without a space comes back whole, and trailing
  empty pieces are dropped;
- `replace(",", "")`;
- `Integer.parseInt` with its sign and 32-bit range;
- the title regex `\s+\([^)]*\)$`, with leftmost-match semantics and
  Java's `$`, which also matches before a final line terminator.

Modules follow the Java packages:

| file | module | contents |
|---|---|---|
| `wrappers.dfy` | `Wrappers` | `Option`, `Result` |
| `strings.dfy` | `Strings` | the String and Integer methods |
| `model.dfy` | `Model` | values, the month lookup, `LocalDateTime.of` |
| `entity.dfy` | `Entity` | the records and the unique key |
| `persist.dfy` | `Persist` | the repositories and their derived queries |
| `collaborators.dfy` | `Cache`, `Index` | the cache and the trie |
| `scraper.dfy` | `Scraper` | the scraper |
| `scheduler.dfy` | `Scheduler` | the scheduled re-scrape |
| `service.dfy` | `Service` | the two services |
| `web.dfy` | `Web` | the controller's orchestration |

The controller's orchestration is the part of `CompanyController` that
calls the services, the trie and the cache.

Each state-changing method is written as the source writes it: loops,
repository calls and the trie and cache updates, in the source's order. Its
`ensures` ties the new state to a specification function of the old
state, such as `IngestCompanies` or `CreateCompany`. Lemmas then prove the
source's promises about those functions.

Two behaviours follow from the code and are proved rather than assumed:

- `storeCompanyAndDividend` saves the company row and the dividend batch
  in separate repository calls. So a scrape that repeats a date fails the
  batch on the unique `(companyId, date)` constraint, and the company row
  stays behind (`Service.SaveScrapedRejected`).
- Adding a company whose name is already cached leaves the cache stale.
  The name lookup then throws "non-unique result" while the cache still
  answers (`Service.AddDuplicateNameStale`).

## Model

| member | source | states |
|---|---|---|
| Entity.NewDividendEntity | src/main/java/com/example/dividend/persist/entity/DividendEntity.java:32-36 | `new DividendEntity(companyId, dividend)`: an unsaved record of that company with the dividend's date and amount string |
| Entity.ToDividend | src/main/java/com/example/dividend/service/FinanceService.java:45-47 | the read-side mapping of a record to a dividend: its date and its amount string |
| Entity.NewDividendEntityRoundTrip | src/main/java/com/example/dividend/persist/entity/DividendEntity.java:32-36 | the constructor keeps the company id, leaves the id unset, and the read side maps the record back to the very dividend that went in (same date, same amount string) |
| Entity.UniqueKeysIffAtMostOne | src/main/java/com/example/dividend/persist/entity/DividendEntity.java:16 | the unique constraint holds exactly when no `(companyId, date)` pair is carried by more than one record |
| Model.MonthNumberOfName | src/main/java/com/example/dividend/scraper/YahooFinanceScraper.java:63 | the month lookup maps each abbreviation back to its number |
| Model.MonthNameOfNumber | src/main/java/com/example/dividend/scraper/YahooFinanceScraper.java:63 | every string the month lookup accepts is the abbreviation of the month it gives |
| Model.MonthNumber | src/main/java/com/example/dividend/scraper/YahooFinanceScraper.java:63 | the month lookup gives a number in 1..12 or -1, never anything else |
| Model.DateOf | src/main/java/com/example/dividend/scraper/YahooFinanceScraper.java:73 | `LocalDateTime.of(y, m, d, 0, 0)` succeeds exactly on a valid calendar date and gives midnight of it; otherwise it gives the date-time error |
| Model.DateOfCalendar | src/main/java/com/example/dividend/scraper/YahooFinanceScraper.java:73 | days 1 to 28 exist in every month; day 29 exists in every month but February; 29 February exists exactly in Gregorian leap years; day 30 exists in every month but February; day 31 exactly in the seven long months; a day, month or year out of range is an error |
| Strings.Trim | src/main/java/com/example/dividend/scraper/YahooFinanceScraper.java:93 | the result is a contiguous slice of the input with only characters at or below U+0020 cut from both ends, has no such character at either end, and is empty exactly when the input consists only of such characters |
| Strings.TrimIdempotent | src/main/java/com/example/dividend/scraper/YahooFinanceScraper.java:94 | trimming a trimmed string changes nothing |
| Strings.Split | src/main/java/com/example/dividend/scraper/YahooFinanceScraper.java:62 | `split(" ")`: a string without a space is returned whole; otherwise the pieces between spaces, with trailing empty pieces dropped |
| Strings.SplitJoin | src/main/java/com/example/dividend/scraper/YahooFinanceScraper.java:62 | `split(" ")` of space-free words joined by single spaces gives the words back, when the last word is not empty |
| Strings.RemoveCommas | src/main/java/com/example/dividend/scraper/YahooFinanceScraper.java:64 | no comma remains and every other character is kept |
| Strings.RemoveCommasSpec | src/main/java/com/example/dividend/scraper/YahooFinanceScraper.java:64 | the result holds the input's characters with every comma removed, counted with multiplicity; a string without a comma is returned unchanged |
| Strings.RemoveCommasAppend | src/main/java/com/example/dividend/scraper/YahooFinanceScraper.java:64 | removing commas from a concatenation removes them from each part |
| Strings.ParseInt | src/main/java/com/example/dividend/scraper/YahooFinanceScraper.java:64-65 | a parsed value is within the 32-bit range |
| Strings.ParseIntRejects | src/main/java/com/example/dividend/scraper/YahooFinanceScraper.java:64-65 | `NumberFormatException` (no value) for an empty string, a lone sign, a string with no digit, and any non-digit after the optional leading sign |
| Strings.ParseIntToString | src/main/java/com/example/dividend/scraper/YahooFinanceScraper.java:64-65 | `parseInt` reads back every 32-bit int that `toString` writes |
| Strings.ParseIntNatural | src/main/java/com/example/dividend/scraper/YahooFinanceScraper.java:64-65 | `parseInt` reads back the unsigned decimal form of every natural number within the 32-bit range |
| Strings.ParseIntNegative | src/main/java/com/example/dividend/scraper/YahooFinanceScraper.java:64-65 | `parseInt` reads back the decimal form with a leading minus of every negative number within the 32-bit range |
| Scraper.ParseRow | src/main/java/com/example/dividend/scraper/YahooFinanceScraper.java:56-74 | one row: none for a row not ending in "Dividend"; otherwise the month, day and year tokens become a date at midnight and the fourth token the amount, or the first failure in source order among the token accesses, the day and year parses, the unknown-month check and `LocalDateTime.of` |
| Scraper.ParseRowSkipsExactly | src/main/java/com/example/dividend/scraper/YahooFinanceScraper.java:57-60 | a row gives nothing exactly when its text does not end in "Dividend"; a marked row gives a dividend or an error |
| Scraper.ParseRowOfTokens | src/main/java/com/example/dividend/scraper/YahooFinanceScraper.java:62-73 | the row `m d y a ...` gives the date (year y, month of m, day d without commas) at 00:00 with the amount a verbatim |
| Scraper.ParseRowUnknownMonth | src/main/java/com/example/dividend/scraper/YahooFinanceScraper.java:63-71 | an unknown month fails the row, but only after the day and the year have parsed; a bad day or year is reported first |
| Scraper.ParseRowExample | src/main/java/com/example/dividend/scraper/YahooFinanceScraper.java:62-73 | "Dec 15, 2023 0.24 Dividend" gives 2023-12-15 00:00 and "0.24" |
| Scraper.ParseRows | src/main/java/com/example/dividend/scraper/YahooFinanceScraper.java:55-76 | the loop over the table body: every row parsed in order, marked rows appended, and the first failing row ends the loop with its failure |
| Scraper.CollectOkIff | src/main/java/com/example/dividend/scraper/YahooFinanceScraper.java:56-76 | collecting rows through any row parser succeeds exactly when no row fails |
| Scraper.CollectOk | src/main/java/com/example/dividend/scraper/YahooFinanceScraper.java:55-73 | for a parser that skips exactly the unmarked rows, a successful collection has one dividend per marked row, in row order, each the parse of its row |
| Scraper.CollectFirstFailure | src/main/java/com/example/dividend/scraper/YahooFinanceScraper.java:63-71 | a failed collection reports the failure of the first failing row, with every earlier row parsing |
| Scraper.CollectFailureSticks | src/main/java/com/example/dividend/scraper/YahooFinanceScraper.java:56-76 | once a prefix of the rows fails, the rows after it do not change the outcome |
| Scraper.ParseRowsOkIff | src/main/java/com/example/dividend/scraper/YahooFinanceScraper.java:56-76 | the table body parses exactly when every row does; otherwise no partial list comes back |
| Scraper.ParseRowsOk | src/main/java/com/example/dividend/scraper/YahooFinanceScraper.java:55-77 | each row ending in "Dividend" yields exactly one dividend, and output order is row order |
| Scraper.ParseRowsFirstFailure | src/main/java/com/example/dividend/scraper/YahooFinanceScraper.java:63-71 | a failed extraction carries the error of the first failing row |
| Scraper.ScrapedFrom | src/main/java/com/example/dividend/scraper/YahooFinanceScraper.java:35-81 | the result of `scrap` for a fetched history page: the company with the dividends of the table body, none when there is no table, an index failure when the table has no body element, the ticker's scraping failure when the page is unreachable |
| Scraper.ScrapedFromSpec | src/main/java/com/example/dividend/scraper/YahooFinanceScraper.java:35-81 | an unreachable page fails with the company's ticker; no table gives the input company with no dividends and no error; a success carries the input company and the parsed body rows |
| Scraper.Scrap | src/main/java/com/example/dividend/scraper/YahooFinanceScraper.java:33-84 | the row loop, appending as it goes, computes exactly `ScrapedFrom` of the fetched page |
| Scraper.GroupEndCorrect | src/main/java/com/example/dividend/scraper/YahooFinanceScraper.java:94 | the scan finds a match at position i ending at e exactly when `\s+\([^)]*\)$` matches there |
| Scraper.FirstGroup | src/main/java/com/example/dividend/scraper/YahooFinanceScraper.java:94 | the match found is the leftmost one; nothing matches before it; no result means nothing matches anywhere |
| Scraper.RemoveTrailingGroup | src/main/java/com/example/dividend/scraper/YahooFinanceScraper.java:94 | `replaceAll("\\s+\\([^)]*\\)$", "")`: the title with the leftmost match of the pattern cut out, or unchanged when there is none |
| Scraper.CleanTitle | src/main/java/com/example/dividend/scraper/YahooFinanceScraper.java:93-94 | the cleaned title has no trimmable character at either end |
| Scraper.CleanTitleNoGroup | src/main/java/com/example/dividend/scraper/YahooFinanceScraper.java:93-94 | a title not ending in a group is returned merely trimmed |
| Scraper.CleanTitleGroup | src/main/java/com/example/dividend/scraper/YahooFinanceScraper.java:93-94 | a title with a trailing group loses exactly the leftmost match (the spaces, the parentheses and what is between them) and is trimmed again |
| Scraper.CleanTitleExample | src/main/java/com/example/dividend/scraper/YahooFinanceScraper.java:93-94 | "Apple Inc. (AAPL)" gives "Apple Inc." |
| Scraper.ScrapCompanyByTicker | src/main/java/com/example/dividend/scraper/YahooFinanceScraper.java:87-101 | the company keeps the input ticker and a trimmed name; an unreachable summary page gives the fetch failure and a page without a title heading gives the missing-title failure |
| Scraper.ScrapCompanyByTickerTitle | src/main/java/com/example/dividend/scraper/YahooFinanceScraper.java:92-100 | a summary page with a title heading gives the input ticker and the cleaned first heading as the name |
| Persist.PersistIfNew | src/main/java/com/example/dividend/scheduler/ScraperScheduler.java:58-61 | `existsByCompanyIdAndDate`, then `save` only when the key is absent |
| Persist.PersistIfNewWellFormed | src/main/java/com/example/dividend/scheduler/ScraperScheduler.java:58-61 | check-then-insert keeps ids and the unique key intact, and afterwards the key is stored |
| Persist.InsertAllWellFormed | src/main/java/com/example/dividend/service/CompanyService.java:64 | `saveAll` of a batch that respects the unique key keeps the store well formed |
| Persist.WithoutCompany | src/main/java/com/example/dividend/service/CompanyService.java:110 | `deleteAllByCompanyId`: a record remains exactly when it was stored and belongs to another company |
| Persist.WithoutCompanyWellFormed | src/main/java/com/example/dividend/service/CompanyService.java:110 | `deleteAllByCompanyId` keeps the store well formed |
| Persist.WithCompany | src/main/java/com/example/dividend/service/FinanceService.java:42 | `findAllByCompanyId`: a record is returned exactly when it is stored and carries that company id |
| Persist.FindByTicker | src/main/java/com/example/dividend/service/CompanyService.java:103-104 | `findByTicker` finds nothing exactly when no row has the ticker; a found row has it |
| Persist.FindByTickerUnique | src/main/java/com/example/dividend/service/CompanyService.java:103-108 | with distinct tickers, the row found is the one row that has the ticker |
| Persist.FindByName | src/main/java/com/example/dividend/service/FinanceService.java:34 | `findByName`: nothing when no row has the name, the row when exactly one has it, a non-unique-result failure when several do |
| Persist.RemoveCompany | src/main/java/com/example/dividend/service/CompanyService.java:111 | `delete(company)`: a row remains exactly when it was stored and has another identity |
| Persist.RemoveCompanyWellFormed | src/main/java/com/example/dividend/service/CompanyService.java:111 | deleting a company row keeps identities distinct and below the counter |
| Persist.RemoveCompanyUniqueTickers | src/main/java/com/example/dividend/service/CompanyService.java:111 | deleting a company row keeps tickers distinct |
| Persist.MatchingNames | src/main/java/com/example/dividend/service/CompanyService.java:93 | every name kept starts with the keyword, ignoring case, and belongs to a stored company; every matching name is kept as often as it occurs |
| Persist.SortNames | src/main/java/com/example/dividend/service/CompanyService.java:92 | the names come out in ascending order and as a permutation of the input |
| Persist.InsertSortedSpec | src/main/java/com/example/dividend/service/CompanyService.java:92 | inserting into a sorted list keeps it sorted and adds exactly that element |
| Persist.LessEqTransitive | src/main/java/com/example/dividend/service/CompanyService.java:92 | the name order is transitive |
| Persist.FirstNamesStartingWith | src/main/java/com/example/dividend/service/CompanyService.java:92-97 | the first page of `findByNameStartingWithIgnoreCase` sorted by name, mapped to names: the matching names in ascending order, cut at the limit |
| Persist.FirstNamesStartingWithSize | src/main/java/com/example/dividend/service/CompanyService.java:92-97 | the page holds min(matches, limit) names, sorted, drawn from the matching names |
| Persist.FirstNamesStartingWithMatch | src/main/java/com/example/dividend/service/CompanyService.java:92-97 | each name on the page belongs to a stored company and starts with the keyword, ignoring case |
| Persist.FirstNamesStartingWithComplete | src/main/java/com/example/dividend/service/CompanyService.java:92-97 | a stored name that starts with the keyword is on the page unless the page is full |
| Persist.FirstNamesStartingWithSmallest | src/main/java/com/example/dividend/service/CompanyService.java:92-97 | every matching name left off the page sorts after every name on it |
| Persist.CompanyRepository.Save | src/main/java/com/example/dividend/service/CompanyService.java:59 | appends the row with the next identity and returns it |
| Persist.CompanyRepository.Delete | src/main/java/com/example/dividend/service/CompanyService.java:111 | removes the company with that id and nothing else |
| Persist.DividendRepository.Save | src/main/java/com/example/dividend/scheduler/ScraperScheduler.java:60 | inserts a record with the next id, or is refused by the unique key with the store untouched |
| Persist.DividendRepository.SaveAll | src/main/java/com/example/dividend/service/CompanyService.java:64 | inserts the whole batch with consecutive ids, or none of it when the unique key would break |
| Persist.DividendRepository.DeleteAllByCompanyId | src/main/java/com/example/dividend/service/CompanyService.java:110 | removes exactly the records of that company |
| Cache.FinanceCache.Put | src/main/java/com/example/dividend/service/FinanceService.java:30 | `@Cacheable` storing a result: that name's entry becomes the result and every other entry is kept |
| Cache.FinanceCache.Clear | src/main/java/com/example/dividend/scheduler/ScraperScheduler.java:41 | `@CacheEvict(allEntries = true)` empties the finance cache |
| Cache.FinanceCache.Evict | src/main/java/com/example/dividend/web/CompanyController.java:68-70 | removes that one name's entry and no other |
| Index.KeysWithPrefix | src/main/java/com/example/dividend/service/CompanyService.java:79 | `prefixMap(prefix).keySet()`: the stored keys that start with the prefix |
| Index.Trie.PrefixKeys | src/main/java/com/example/dividend/service/CompanyService.java:79-81 | the trie's keys that start with the prefix |
| Index.Trie.Put | src/main/java/com/example/dividend/service/CompanyService.java:75 | `put(key, null)`: the key set gains that key and nothing else |
| Index.Trie.Remove | src/main/java/com/example/dividend/service/CompanyService.java:86 | `remove(key)`: the key set loses that key and nothing else |
| Index.KeysWithPrefixSpec | src/main/java/com/example/dividend/service/CompanyService.java:73-87 | a key is returned for a prefix exactly when it is stored and starts with it; a key just put is returned for every prefix of it; a key just removed is never returned |
| Scheduler.IngestDividends | src/main/java/com/example/dividend/scheduler/ScraperScheduler.java:53-63 | the inner loop: check-then-insert of each scraped dividend, in order |
| Scheduler.IngestDividendsWellFormed | src/main/java/com/example/dividend/scheduler/ScraperScheduler.java:57-62 | a unique store stays unique even when one scrape repeats a date |
| Scheduler.IngestDividendsGrows | src/main/java/com/example/dividend/scheduler/ScraperScheduler.java:55-61 | existing records are kept as they were; each new record carries the company's id and reads back as one of the scraped dividends |
| Scheduler.IngestDividendsCovers | src/main/java/com/example/dividend/scheduler/ScraperScheduler.java:53-63 | afterwards every scraped dividend has a record with the company's id and its date |
| Scheduler.IngestDividendsIdle | src/main/java/com/example/dividend/scheduler/ScraperScheduler.java:58-61 | when every key is already stored, nothing is inserted |
| Scheduler.IngestDividendsRefIntegrity | src/main/java/com/example/dividend/scheduler/ScraperScheduler.java:55 | new records point at a stored company |
| Scheduler.ScrapeOf | src/main/java/com/example/dividend/scheduler/ScraperScheduler.java:51 | the scrape of a stored company, made with its stored ticker and name |
| Scheduler.IngestCompanies | src/main/java/com/example/dividend/scheduler/ScraperScheduler.java:46-70 | the outer loop: for each company in listing order, scrape and ingest, stopping at the first failing scrape |
| Scheduler.IngestCompaniesWellFormed | src/main/java/com/example/dividend/scheduler/ScraperScheduler.java:49-70 | the whole run keeps ids distinct and the unique key intact |
| Scheduler.IngestCompaniesGrows | src/main/java/com/example/dividend/scheduler/ScraperScheduler.java:49-70 | the run never modifies or removes an existing record |
| Scheduler.IngestCompaniesFailure | src/main/java/com/example/dividend/scheduler/ScraperScheduler.java:49-51 | the run completes exactly when every company's scrape succeeds |
| Scheduler.IngestCompaniesAbort | src/main/java/com/example/dividend/scheduler/ScraperScheduler.java:49-51 | the first failing scrape aborts the remaining companies; inserts made for earlier companies stay |
| Scheduler.IngestCompaniesCovers | src/main/java/com/example/dividend/scheduler/ScraperScheduler.java:46-63 | after a completed run, every scraped dividend of every company has a record with that company's id and its date |
| Scheduler.IngestCompaniesIdleOn | src/main/java/com/example/dividend/scheduler/ScraperScheduler.java:58-61 | a store that already holds every key a run would insert is left unchanged by that run |
| Scheduler.IngestCompaniesIdempotent | src/main/java/com/example/dividend/scheduler/ScraperScheduler.java:58-61 | a second run with identical scrape results inserts nothing |
| Scheduler.IngestCompaniesRefIntegrity | src/main/java/com/example/dividend/scheduler/ScraperScheduler.java:46-55 | every record still points at a stored company |
| Scheduler.ScraperScheduler.YahooFinanceScheduling | src/main/java/com/example/dividend/scheduler/ScraperScheduler.java:41-73 | the nested loop in listing order leaves the store that `IngestCompanies` describes; on normal completion the cache is empty, and an aborted run leaves it untouched |
| Service.NewRecords | src/main/java/com/example/dividend/service/CompanyService.java:60-62 | one new record per scraped dividend, in order, each carrying the company id |
| Service.CreateCompany | src/main/java/com/example/dividend/service/CompanyService.java:35-66 | `save`: refuse a stored ticker, otherwise scrape the company and its history and write the row and the batch |
| Service.CreateCompanyWrites | src/main/java/com/example/dividend/service/CompanyService.java:35-66 | a duplicate ticker is refused with the tables untouched; a failed scrape writes nothing; otherwise the writes happen, for the scraped company whose ticker is the input |
| Service.SaveScraped | src/main/java/com/example/dividend/service/CompanyService.java:59-65 | the writes after both scrapes: the company row with the next identity, then the whole batch of its records, or none of them when the unique key would break, with the row kept |
| Service.SaveScrapedSpec | src/main/java/com/example/dividend/service/CompanyService.java:59-65 | the company row is appended with the next identity; on success the scraped company is returned and one record per scraped dividend is appended in order with the new id; a refused batch leaves the dividend table untouched |
| Service.UniqueKeysFreshBatch | src/main/java/com/example/dividend/service/CompanyService.java:60-64 | a batch for a fresh company breaks the unique key exactly when the scrape repeats a date |
| Service.SaveScrapedRejected | src/main/java/com/example/dividend/service/CompanyService.java:59-64 | the batch is refused with the company row in place exactly when the scraped history repeats a date |
| Service.CreateCompanyValid | src/main/java/com/example/dividend/service/CompanyService.java:35-66 | creation keeps the tables valid: identities, the unique key, references, distinct tickers |
| Service.DeleteByTicker | src/main/java/com/example/dividend/service/CompanyService.java:101-116 | `deleteCompany`: `NoCompanyException` for an unknown ticker, otherwise the records and then the row of that company are removed |
| Service.DeleteByTickerSpec | src/main/java/com/example/dividend/service/CompanyService.java:101-116 | an unknown ticker raises `NoCompanyException` and changes nothing; otherwise that company's records and row, and only those, are removed, and the ticker is gone |
| Service.DeleteByTickerValid | src/main/java/com/example/dividend/service/CompanyService.java:101-116 | deletion keeps the tables valid |
| Service.Lookup | src/main/java/com/example/dividend/service/FinanceService.java:33-51 | the database path of `getDividendByCompanyName`: find by name, then the records of that company read back as dividends |
| Service.LookupSpec | src/main/java/com/example/dividend/service/FinanceService.java:31-52 | an absent name raises `NoCompanyException`; a result has the stored ticker and name, and its dividends map one-to-one and in order onto exactly the records with that company's id |
| Service.SaveThenLookup | src/main/java/com/example/dividend/service/CompanyService.java:59-65 | after a successful save, looking the new company up gives back the scraped company and its scraped dividends |
| Service.DeleteKeepsCoherence | src/main/java/com/example/dividend/web/CompanyController.java:62-70 | deleting a company and evicting its name keeps every cached answer right |
| Service.SaveScrapedCoherence | src/main/java/com/example/dividend/service/CompanyService.java:59-64 | the creation writes keep every cached answer right when the new name is not cached |
| Service.CreateCompanyCoherence | src/main/java/com/example/dividend/service/CompanyService.java:35-66 | a creation keeps the cache right unless the row it appends carries a cached name |
| Service.AddDuplicateNameStale | src/main/java/com/example/dividend/service/FinanceService.java:34 | a second company with a cached name makes the lookup throw "non-unique result", so the cached answer is stale |
| Service.CompanyService.Save | src/main/java/com/example/dividend/service/CompanyService.java:35-44 | the duplicate check and then `storeCompanyAndDividend` do exactly what `CreateCompany` describes, and the tables stay valid |
| Service.CompanyService.StoreCompanyAndDividend | src/main/java/com/example/dividend/service/CompanyService.java:46-66 | both scrapes, then the company row, then `saveAll`, as `CreateCompany` describes |
| Service.CompanyService.AddAutoCompleteKeyword | src/main/java/com/example/dividend/service/CompanyService.java:73-76 | adds exactly that key to the trie |
| Service.CompanyService.AutoComplete | src/main/java/com/example/dividend/service/CompanyService.java:78-82 | returns exactly the trie keys that start with the keyword |
| Service.CompanyService.DeleteAutoCompleteKeyword | src/main/java/com/example/dividend/service/CompanyService.java:84-87 | removes exactly that key and no other |
| Service.CompanyService.GetCompanyNamesByKeyword | src/main/java/com/example/dividend/service/CompanyService.java:90-98 | at most 10 names, in ascending order, each the name of a stored company starting with the keyword, ignoring case |
| Service.CompanyService.DeleteCompany | src/main/java/com/example/dividend/service/CompanyService.java:100-116 | leaves the tables `DeleteByTicker` describes, returns the deleted name, and removes that name, and only it, from the trie |
| Service.FinanceService.GetDividendByCompanyName | src/main/java/com/example/dividend/service/FinanceService.java:30-52 | a hit returns the cached result and changes nothing; a miss computes the lookup and caches it on success; the store is not modified; on a coherent cache the answer is the lookup and coherence is kept |
| Web.IndexSoundAppend | src/main/java/com/example/dividend/web/CompanyController.java:53-54 | after a new company row, every trie key, the new name included, names a stored company |
| Web.IndexSoundRemove | src/main/java/com/example/dividend/service/CompanyService.java:110-114 | removing a company and its name keeps every remaining key backed by a stored company |
| Web.AddCompanyKeeps | src/main/java/com/example/dividend/web/CompanyController.java:47-56 | the trimmed ticker is used; a blank one fails before any service call and changes nothing; a key is added exactly when `save` returns, and it is that company's name; tables stay valid and keys stay backed |
| Web.AddCompanyCoherence | src/main/java/com/example/dividend/web/CompanyController.java:47-56 | adding a company leaves the finance cache coherent when the new row's name is not cached |
| Web.AddCompanySpec | src/main/java/com/example/dividend/web/CompanyController.java:47-56 | `addCompany`: a blank trimmed ticker is refused; otherwise `save`, and on success the returned name is added to the trie |
| Web.CompanyController.AddCompany | src/main/java/com/example/dividend/web/CompanyController.java:47-56 | trim, check, `save`, then the keyword, as `AddCompanySpec` describes |
| Web.CompanyController.DeleteCompany | src/main/java/com/example/dividend/web/CompanyController.java:60-66 | the service delete, then eviction of the returned name only after it succeeds; a coherent cache stays coherent |
| Web.CompanyController.ClearFinanceCache | src/main/java/com/example/dividend/web/CompanyController.java:68-70 | evicts only that one name's entry |

## Left out

Replaced by inputs, or not modelled:

- Jsoup fetching, CSS selection and the DOM: foreign code. They are
  replaced by the `Upstream` input, which gives an unreachable page, a page
  without the table, or table bodies as row texts (`Element.text()` as
  given). No element selection is modelled.
- The URL built from `System.currentTimeMillis()` and the constants: the
  clock and the URL do not affect the outcome given an `Upstream`.
- `Thread.sleep` and interrupt handling between companies: timing only,
  so a no-op.
- Spring annotations beyond their effect: cron scheduling,
  `@Transactional` rollback, `@PreAuthorize` and the HTTP mappings.
  `@Cacheable` and `@CacheEvict` are modelled as their cache-map
  operations. `@CacheEvict` takes effect only on normal completion, as by
  default.
- Transactions: the company row and the dividend batch are separate writes.
  A failed batch is all-or-nothing and leaves the company row.
  Controller-level transaction rollback is not modelled.
- Logging: no effect on state.
- Concurrency: each request and each scheduled run is modelled as running
  alone. Interleavings are not modelled, so the distinct tickers of
  `Service.CreateCompanyValid` and the check-then-insert of the scheduler
  hold only when `existsByTicker` and `save`, or `existsByCompanyIdAndDate`
  and `save`, are not interleaved with another writer. The trie, shared
  without synchronisation, is modelled as a set updated one call at a time.
- Identity values of a refused batch: a refused `saveAll` leaves the
  identity counter where it was, whereas a database IDENTITY column may use
  up values. Only distinctness of identities is promised, which holds either
  way.
- `findByTicker` on several matching rows: Spring would throw, as
  `findByName` does in the model; here the first row is returned. Under
  distinct tickers that case cannot arise.
- `getAllCompany` and the controller's `autoComplete`/`searchCompany`
  endpoints: pagination and HTTP pass-throughs.
- `TokenProvider`, `MemberService`, `Auth` and
  `PasswordMisMatchException`: JWT, password hashing and DTOs, outside the
  pipeline.
- `FailedScrapingDividendException`: only its ticker is kept, as
  `Failure.FailedScrapingDividend`. Its status code and message are
  constants.
- The `ObjectUtils.isEmpty(company)` branch of `storeCompanyAndDividend`:
  unreachable, because `scrapCompanyByTicker` returns a company or throws.
- A `null` ticker in the request: strings here are never null.

Types whose source is not part of this model; their shape is assumed:

- `Month`, `Company`, `Dividend`, `ScrapedResult`, `CompanyEntity`:
  `Month.strToNumber` is assumed to map the twelve English three-letter
  abbreviations to 1..12 and anything else to -1.
- The repository interfaces: their derived queries are modelled by name.
- `ScrapedResult`'s no-argument constructor is assumed to start with an
  empty dividend list.

Deliberately weaker contracts:

- Strings.ParseInt: only ASCII digits are accepted. Java also accepts other
  Unicode decimal digits, which the page does not produce.
- Strings.StartsWithIgnoreCase: folds ASCII letters only. Case folding of
  other scripts and the database collation are not modelled.
- Strings.LessEq: `Sort.by("name")` is modelled as ordering by character
  code. The database collation is not modelled.
- Service.CompanyService.AutoComplete: returns a set. The trie's key order
  is not modelled.
- Service.LookupSpec: records come back in insertion order, standing in
  for the unspecified order of `findAllByCompanyId`.
- Persist.CompanyRepository.Save: always inserts. JPA's update of an
  existing entity on save is not used by the core.
