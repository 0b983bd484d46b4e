# India contact scraper: the crawl bookkeeping, modelled in Dafny

The scraper (`novisitedlink.py`) searches for websites matching a keyword,
crawls each site's seed page and a bounded number of same-domain links,
pulls names, organisations, emails and Indian mobile numbers out of every
page, and exports one contact row per detected person. It remembers which
pages it has already scraped (the visited set, saved between runs) and
takes each run's batch of sites from the searched candidate pool minus
that set.

This project models the deterministic part of that program:

- `CrawlOrchestrator` (crawl.dfy): `crawl_and_scrape` as a `Crawler` class
  whose state is the visited set and its saved copy. The method
  `CrawlAndScrape` is proved equal to a fold (`VisitPages`) over the batch's
  page list, and the lemmas prove what the fold guarantees. The visited set
  only grows, and it grows by exactly the pages whose scrape succeeded.
  No page visited before the batch is scraped again. A page that succeeds
  is scraped at most once, even if it appears twice in the list. Every
  unvisited page is reached. The rows are the expansions of the successful
  scrapes, in call order. Link discovery and page fetching are function
  parameters: `discover` and `extract`.
- `Records` (records.dfy): the page record and the contact row, and the
  expansion of one page into `max(len(names), 1)` rows.
- `ContactExtractor` (extractor.dfy): the no-reply email post-filter and
  the assembly of `scrape_page`'s record.
- `PhonePattern` (phone.dfy): `PHONE_REGEX` as a whole-string recogniser.
  It is proved equal to a reference reading of the pattern as a split of
  the string into its parts.
- `LinkDiscoverer` (links.dfy): the filter-and-cap loop of `get_links`.
- `Deduplicator` (dedup.dfy): `deduplicate`, which keeps the first row per
  (Email(s), Phone(s)) signature.
- `BatchSelector` (batch.dfy): `all_urls - visited_links`, listed and cut to
  the batch size.
- `ExcelCleaning` (excel.dfy): `clean_excel_string`.
- `SearchOrdering` (search.dfy): the reordering of search hits in
  `search_urls`.

On three points the code does something other than a reader might
expect; the model follows the code as written:

- The link filter tests whether the base netloc occurs anywhere in the
  resolved href (line 66), not whether the href's host contains it.
- The phone pattern also accepts a bare `91` country code with no `+` or
  `00`, because `(?:\+|00)?` is optional.
- The cap on discovered links is tested after each insertion. A cap below
  one therefore still admits one link.

## Model

| member | source | states |
|---|---|---|
| `CrawlOrchestrator.Crawler.CrawlAndScrape` | novisitedlink.py:100-128 | The new visited set, the rows and the scrape-call log are those of the fold over `[seed] + discovered links` for each seed. The visited set becomes the old one plus exactly the pages whose scrape succeeded, and it is saved at the end. No call is for a page visited before the batch. A successful page is scraped at most once. Every unvisited page of the list is scraped. The rows are the expansions of the successful calls in call order. |
| `CrawlOrchestrator.Crawler.VisitOne` | novisitedlink.py:107-126 | One pass of the inner loop equals `VisitPage`. A visited page is skipped. Any other page is scraped. On success the page is added to the visited set before its rows are appended. The saved copy does not change. |
| `CrawlOrchestrator.Crawler.constructor` | novisitedlink.py:41 | The visited set starts as the loaded, previously saved set. |
| `CrawlOrchestrator.AppendPageRows` | novisitedlink.py:115-125 | The row loop appends exactly `PageRows(rec)`, which is `max(len(names), 1)` rows. |
| `CrawlOrchestrator.VisitPagesAppend` | novisitedlink.py:103-107 | Visiting the seeds' page lists one after another is visiting their concatenation. |
| `CrawlOrchestrator.VisitPagesVisited` | novisitedlink.py:107-114 | After a page list, the visited set is the old set plus exactly the pages whose scrape succeeds. It only grows, and failed pages are not added. |
| `CrawlOrchestrator.VisitPagesCallsPrefix` | novisitedlink.py:111-112 | Earlier scrape calls are kept and new ones are appended after them. |
| `CrawlOrchestrator.VisitPagesCalls` | novisitedlink.py:107-112 | Every new scrape call is for a page of the list that was not visited when the list started. |
| `CrawlOrchestrator.VisitPagesScrapedOnce` | novisitedlink.py:107-114 | Two new calls for the same page imply that the page's scrape failed. A page that succeeds is therefore scraped at most once, even when it is both a seed and a discovered link. |
| `CrawlOrchestrator.VisitPagesReachesAll` | novisitedlink.py:107-112 | Every page of the list that was unvisited at the start is scraped. |
| `CrawlOrchestrator.RowsOfSnoc` | novisitedlink.py:113-125 | One more scrape call appends that page's rows (none when it failed) after the rows of the earlier calls. |
| `CrawlOrchestrator.VisitPagesRows` | novisitedlink.py:113-125 | If the rows so far are the page expansions of the calls so far, they still are after any page list. Starting from nothing, the rows are the expansions of the successful calls, in call order. |
| `CrawlOrchestrator.SinglePageScenario` | novisitedlink.py:100-128 | A seed with no links, one person, one address and one number gives exactly one row for that person, with no company, and the seed becomes visited. |
| `Common.JoinSnoc` | novisitedlink.py:122-123 | `", ".join` puts exactly one separator between neighbouring elements: joining one more element appends the separator and that element. |
| `Records.RowCount` | novisitedlink.py:115 | The count is `max(len(names), 1)`: at least one, and equal to the number of names when there are any. |
| `Records.PageRows` | novisitedlink.py:115 | A page expands into `max(len(names), 1)` rows. |
| `Records.PageRowsFields` | novisitedlink.py:115-125 | Row i carries name i, or none when no names were found. Every row carries the first organisation (or none), no designation, the page URL, and as Email(s) and Phone(s) the `", "`-joined lists, or none when a list is empty; so the rows of a page differ only in the name. |
| `ContactExtractor.FilterEmailsMembers` | novisitedlink.py:86 | No kept address starts with `noreply`, `no-reply` or `donotreply`. Every other input address is kept, and nothing new appears. |
| `ContactExtractor.FilterEmailsAppend` | novisitedlink.py:86 | The filter commutes with concatenation, so kept addresses keep their relative order. |
| `ContactExtractor.FilterEmailsDistinct` | novisitedlink.py:85-86 | Distinct matches stay distinct after filtering. |
| `ContactExtractor.FilterEmailsIdempotent` | novisitedlink.py:86 | Filtering twice equals filtering once. |
| `ContactExtractor.ScrapePage` | novisitedlink.py:80-98 | The result is `None` exactly when fetching or parsing raised. Otherwise the record carries the requested URL, the recogniser's names and orgs, the phones, and as emails the post-filtered list `FilterEmails` of the matches: exactly the non-no-reply addresses, in their order (see `FilterEmailsMembers` and `FilterEmailsAppend`). |
| `PhonePattern.MatchesPhoneCorrect` | novisitedlink.py:23 | The left-to-right recogniser accepts exactly the strings that split into an optional `+`/`00`, `91` and an optional whitespace or hyphen, followed by a mobile number, or that are a mobile number alone. |
| `PhonePattern.MatchesPhoneSound` | novisitedlink.py:23 | Every string the recogniser accepts splits as the pattern requires. |
| `PhonePattern.MatchesPhoneComplete` | novisitedlink.py:23 | Every string that splits as the pattern requires is accepted, because only one choice of international prefix fits. |
| `PhonePattern.AcceptsMobileNumbers` | novisitedlink.py:23 | Ten digits led by 6-9 match alone and behind `+91`, `0091`, `91`, `+91-`, `+91 ` and `0091-`. |
| `PhonePattern.MatchShape` | novisitedlink.py:23 | Every match is 10 to 15 characters long and ends in a mobile number. |
| `PhonePattern.RejectsLowLeadingDigit` | novisitedlink.py:23 | A ten-character string starting with a digit 0-5 never matches. |
| `ExcelCleaning.StripControl` | novisitedlink.py:142 | The result has no character in `\x00-\x1F` or `\x7F-\x9F`. Every other character of the input is kept, and none is added. |
| `ExcelCleaning.StripControlAppend` | novisitedlink.py:142 | Removal commutes with concatenation, so the kept characters stay in order. |
| `ExcelCleaning.StripControlKeepsClean` | novisitedlink.py:142 | A string without control characters is returned unchanged. |
| `ExcelCleaning.StripControlLength` | novisitedlink.py:142 | The length drops by exactly the number of control characters. |
| `ExcelCleaning.CleanExcelString` | novisitedlink.py:140-143 | Non-string values are returned unchanged. A string comes back as `StripControl` of itself: a string with no control characters that keeps every other character in order (see the `StripControl` lemmas). |
| `ExcelCleaning.CleanExcelStringIdempotent` | novisitedlink.py:140-143 | Cleaning a cleaned cell changes nothing. |
| `Deduplicator.Deduplicate` | novisitedlink.py:130-138 | The loop with `seen` and `unique` computes `Dedup`. It keeps every signature of the input, no two output rows share a signature, and the output is a subsequence made of first occurrences. |
| `Deduplicator.SignaturesSnoc` | novisitedlink.py:134-136 | Adding a row to the prefix adds its signature to the seen set. |
| `Deduplicator.DedupSignatures` | novisitedlink.py:130-138 | Every (Email(s), Phone(s)) signature of the input is represented in the output, and no other signature is. |
| `Deduplicator.DedupIsFirstOccurrences` | novisitedlink.py:130-138 | The output embeds into the input at increasing positions, and each position is the first occurrence of its signature. |
| `Deduplicator.DedupDistinctSignatures` | novisitedlink.py:130-138 | No two output rows share a signature. |
| `Deduplicator.SameSignatureCollapses` | novisitedlink.py:134-137 | Two rows with the same emails and phones collapse into the first, whatever their names or source URLs. |
| `BatchSelector.Enumerate` | novisitedlink.py:190 | `list(set)` lists each element of the set exactly once, in an order that is not specified. |
| `BatchSelector.SelectBatch` | novisitedlink.py:190-196 | The result is the no-new-URLs warning exactly when the pool is contained in the visited set. Otherwise the batch has no duplicates, lies in `all_urls - visited_links`, and has length equal to the smaller of `num_websites` and the number of remaining URLs. |
| `BatchSelector.BatchTakesAllRemaining` | novisitedlink.py:190-196 | When no more URLs remain than were asked for, the batch is all of them. |
| `LinkDiscoverer.KeptCons` | novisitedlink.py:64-67 | The hrefs passing the filter are those of the first href and those of the rest. |
| `LinkDiscoverer.CollectBetween` | novisitedlink.py:64-67 | The scan adds only hrefs that contain the base netloc as a substring. |
| `LinkDiscoverer.CollectAllOrCap` | novisitedlink.py:64-69 | The scan either collects every href that passes the filter, or stops having reached `max_pages` links. |
| `LinkDiscoverer.CollectBound` | novisitedlink.py:66-69 | The scan never holds more than `max(max_pages, 1)` links. |
| `LinkDiscoverer.GetLinks` | novisitedlink.py:57-72 | A failed fetch yields no links. Otherwise the loop computes `Collect`: distinct hrefs of the page, each containing the netloc, at most `max(max_pages, 1)` of them, and either all that pass or at least `max_pages`. |
| `SearchOrdering.ReverseAt` | novisitedlink.py:52 | Front insertion reverses: position k of the reversed list holds the element k places from the end. |
| `SearchOrdering.ReverseMultiset` | novisitedlink.py:52 | Reversal loses or adds nothing. |
| `SearchOrdering.ArrangedSnoc` | novisitedlink.py:51-54 | A preferred hit (domain ending in `.in` or containing `india`) goes to the front of the list, any other hit to the back. |
| `SearchOrdering.ArrangedIsPermutation` | novisitedlink.py:48-54 | Before truncation the list is a permutation of the hits' URLs. |
| `SearchOrdering.SearchUrls` | novisitedlink.py:44-55 | The loop returns the preferred URLs in reverse arrival order, then the others in arrival order, cut to `max_results`. The result holds no URL more often than the hits do. |

## Left out

- HTTP requests, the DuckDuckGo client, `time.sleep` throttling, logging and
  all Streamlit output are not modelled. They are network I/O, timing and
  presentation.
- BeautifulSoup parsing and `get_text`, `urljoin` and `urlparse` are
  not modelled: they are foreign libraries. `GetLinks` takes the
  page's resolved hrefs and the base netloc as given, and `SearchUrls` takes
  each hit's lower-cased netloc as given.
- spaCy entity recognition (`extract_entities`) and the `re.findall` scans
  for emails and phones are not modelled. The crawler's `extract` parameter
  yields their results (`PageExtract`), or `None` when fetching or parsing
  raised.
- `EMAIL_REGEX` itself is not modelled. Only the post-filter on its matches
  is.
- `PhonePattern.MatchesPhoneCorrect`: `\d` is read as the ASCII digits,
  because Python's `\d` also matches other Unicode decimal digits. The
  pattern is modelled as a whole-string match, not as the `findall`
  scan of free text.
- `load_json` and `save_json` are not modelled as file I/O. Loading is the
  `Crawler` constructor's argument, and saving is the `saved` field being
  set once at the end of the batch.
- The `list(links)` conversion at the end of `get_links` is not modelled.
  Python does not specify the order. The crawler's `discover` parameter
  stands for the whole `get_links` call and supplies the list. `GetLinks`
  returns the set.
- `GetLinks`: an exception raised part-way through the href loop would
  return the links collected so far. The model treats a failure as a
  failure of the whole page (no links).
- `CrawlAndScrape`: `extract` is a function of the URL, so a page that
  fails once fails again if it recurs in the same batch. A real network may
  answer differently the second time.
- `SelectBatch`: `Enumerate` fixes one order per set, which matches one
  process. Python randomises string hashing per process, so the model makes
  no claim about the order across runs.
- The rest of `main` is not modelled: the reset button, filling the pool
  from the search when it is empty, the keyword check, and the calls to
  `deduplicate` and the exporters. It is user-interface control flow.
- `save_to_excel` and `save_to_csv` (pandas, openpyxl, `fillna("None")`)
  are not modelled: they are library wrappers. Only `clean_excel_string`,
  which they apply to every cell, is modelled.
