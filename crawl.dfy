/** The crawl orchestrator `crawl_and_scrape` and the visited set it keeps.

    For each seed URL of the batch the page list is the seed followed by
    the links discovered on it. Each page already in the visited set is
    skipped; any other page is scraped, and when scraping succeeds the page
    is added to the visited set at once and expands into contact rows. At
    the end the visited set is saved.

    `VisitPage` and `VisitPages` specify one page and a page list as a fold
    over a `CrawlState`; `Crawler.CrawlAndScrape` is the loop, proved equal
    to that fold; the lemmas say what the fold guarantees. */
module CrawlOrchestrator {
  import opened Common
  import opened Records
  import opened ContactExtractor

  /** What the crawl has built so far: the visited set, the rows emitted,
      and the log of pages handed to `scrape_page`, in call order. */
  datatype CrawlState = CrawlState(visited: set<string>, rows: seq<ContactRecord>, calls: seq<string>)

  /** The pages of a batch in the order the loops reach them: each seed
      (`pages.insert(0, base_url)`) followed by what the link discoverer
      returned for it. */
  function PageList(batch: seq<string>, discover: (string, int) -> seq<string>, maxPages: int): seq<string>
  {
    if batch == [] then []
    else [batch[0]] + discover(batch[0], maxPages) + PageList(batch[1..], discover, maxPages)
  }

  /** The rows of one scraped page: none when scraping failed. */
  function OutcomeRows(page: string, extract: string -> Option<PageExtract>): seq<ContactRecord>
  {
    match ScrapePage(page, extract(page))
    case None => []
    case Some(rec) => PageRows(rec)
  }

  /** One iteration of the inner loop. */
  function VisitPage(st: CrawlState, page: string, extract: string -> Option<PageExtract>): CrawlState
  {
    if page in st.visited then st
    else
      match ScrapePage(page, extract(page))
      case None => st.(calls := st.calls + [page])
      case Some(rec) => CrawlState(st.visited + {page}, st.rows + PageRows(rec), st.calls + [page])
  }

  /** The inner loop over a list of pages. */
  function VisitPages(st: CrawlState, pages: seq<string>, extract: string -> Option<PageExtract>): CrawlState
    decreases pages
  {
    if pages == [] then st else VisitPages(VisitPage(st, pages[0], extract), pages[1..], extract)
  }

  /** The pages of the list for which scraping succeeds. */
  function Succeeded(pages: seq<string>, extract: string -> Option<PageExtract>): set<string>
  {
    set p | p in pages && extract(p).Some?
  }

  /** The rows the scrape calls `calls` emit, in call order. */
  function RowsOf(calls: seq<string>, extract: string -> Option<PageExtract>): seq<ContactRecord>
  {
    if calls == [] then [] else OutcomeRows(calls[0], extract) + RowsOf(calls[1..], extract)
  }

  /** Visiting a list split in two is visiting the halves in turn. */
  lemma {:induction false} VisitPagesAppend(st: CrawlState, a: seq<string>, b: seq<string>, extract: string -> Option<PageExtract>)
    ensures VisitPages(st, a + b, extract) == VisitPages(VisitPages(st, a, extract), b, extract)
    decreases a
  {
    if a == [] {
      assert a + b == b;
    } else {
      assert (a + b)[0] == a[0] && (a + b)[1..] == a[1..] + b;
      VisitPagesAppend(VisitPage(st, a[0], extract), a[1..], b, extract);
    }
  }

  /** The visited set only grows, and grows by exactly the pages of the list
      whose scrape succeeds: failed pages are not added. */
  lemma {:induction false} VisitPagesVisited(st: CrawlState, pages: seq<string>, extract: string -> Option<PageExtract>)
    ensures VisitPages(st, pages, extract).visited == st.visited + Succeeded(pages, extract)
    decreases pages
  {
    if pages == [] {
      assert Succeeded(pages, extract) == {};
    } else {
      var p := pages[0];
      VisitPagesVisited(VisitPage(st, p, extract), pages[1..], extract);
      assert Succeeded(pages, extract)
          == Succeeded(pages[1..], extract) + (if extract(p).Some? then {p} else {}) by {
        assert forall x | x in pages :: x == p || x in pages[1..];
      }
    }
  }

  /** Earlier calls stay as they were; new ones are appended. */
  lemma {:induction false} VisitPagesCallsPrefix(st: CrawlState, pages: seq<string>, extract: string -> Option<PageExtract>)
    ensures var r := VisitPages(st, pages, extract);
      |st.calls| <= |r.calls| && r.calls[..|st.calls|] == st.calls
    decreases pages
  {
    if pages != [] {
      var st1 := VisitPage(st, pages[0], extract);
      VisitPagesCallsPrefix(st1, pages[1..], extract);
      var r := VisitPages(st1, pages[1..], extract);
      assert r.calls[..|st.calls|] == r.calls[..|st1.calls|][..|st.calls|];
    }
  }

  /** The calls made before are kept, and every new call is for a page of
      the list that was not visited when the list started. */
  lemma {:induction false} VisitPagesCalls(st: CrawlState, pages: seq<string>, extract: string -> Option<PageExtract>)
    ensures var r := VisitPages(st, pages, extract);
      && |st.calls| <= |r.calls|
      && r.calls[..|st.calls|] == st.calls
      && st.visited <= r.visited
      && forall i | |st.calls| <= i < |r.calls| :: r.calls[i] in pages && r.calls[i] !in st.visited
    decreases pages
  {
    if pages != [] {
      var st1 := VisitPage(st, pages[0], extract);
      VisitPagesCalls(st1, pages[1..], extract);
      var r := VisitPages(st, pages, extract);
      assert r == VisitPages(st1, pages[1..], extract);
      assert r.calls[..|st1.calls|] == st1.calls;
      assert r.calls[..|st.calls|] == st1.calls[..|st.calls|];
      forall i | |st.calls| <= i < |r.calls| ensures r.calls[i] in pages && r.calls[i] !in st.visited {
        if i < |st1.calls| {
          assert r.calls[i] == st1.calls[i] == pages[0];
        } else {
          assert r.calls[i] in pages[1..];
        }
      }
    }
  }

  /** A page whose scrape succeeds is scraped at most once, even when it
      occurs several times in the list (a seed that is also rediscovered). */
  lemma {:induction false} VisitPagesScrapedOnce(st: CrawlState, pages: seq<string>, extract: string -> Option<PageExtract>)
    ensures var r := VisitPages(st, pages, extract);
      forall i, j | |st.calls| <= i < j < |r.calls| && r.calls[i] == r.calls[j] :: extract(r.calls[i]).None?
    decreases pages
  {
    if pages != [] {
      var p := pages[0];
      var st1 := VisitPage(st, p, extract);
      var r := VisitPages(st1, pages[1..], extract);
      assert r == VisitPages(st, pages, extract);
      VisitPagesScrapedOnce(st1, pages[1..], extract);
      VisitPagesCalls(st1, pages[1..], extract);
      forall i, j | |st.calls| <= i < j < |r.calls| && r.calls[i] == r.calls[j]
        ensures extract(r.calls[i]).None?
      {
        if i < |st1.calls| {
          assert r.calls[i] == st1.calls[i] == p;
          assert r.calls[j] !in st1.visited;
        }
      }
    }
  }

  /** Every page of the list that was not visited when the list started is
      scraped. */
  lemma {:induction false} VisitPagesReachesAll(st: CrawlState, pages: seq<string>, extract: string -> Option<PageExtract>)
    ensures var r := VisitPages(st, pages, extract);
      |st.calls| <= |r.calls| &&
      forall p | p in pages && p !in st.visited :: p in r.calls[|st.calls|..]
    decreases pages
  {
    VisitPagesCalls(st, pages, extract);
    if pages != [] {
      var p0 := pages[0];
      var st1 := VisitPage(st, p0, extract);
      var r := VisitPages(st1, pages[1..], extract);
      VisitPagesReachesAll(st1, pages[1..], extract);
      VisitPagesCalls(st1, pages[1..], extract);
      forall p | p in pages && p !in st.visited ensures p in r.calls[|st.calls|..] {
        if p == p0 {
          assert r.calls[|st.calls|] == st1.calls[|st.calls|] == p0;
        } else {
          assert p in pages[1..] && p !in st1.visited;
          assert p in r.calls[|st1.calls|..];
          assert r.calls[|st1.calls|..] == r.calls[|st.calls|..][|st1.calls| - |st.calls|..];
        }
      }
    }
  }

  /** What one page does to each part of the state. */
  lemma VisitPageEffect(st: CrawlState, page: string, extract: string -> Option<PageExtract>)
    ensures var st1 := VisitPage(st, page, extract);
      && st1.calls == (if page in st.visited then st.calls else st.calls + [page])
      && st1.rows == (if page in st.visited then st.rows else st.rows + OutcomeRows(page, extract))
      && st1.visited == (if page !in st.visited && extract(page).Some? then st.visited + {page} else st.visited)
  {
  }

  /** One more call appends its rows. */
  lemma {:induction false} RowsOfSnoc(calls: seq<string>, p: string, extract: string -> Option<PageExtract>)
    ensures RowsOf(calls + [p], extract) == RowsOf(calls, extract) + OutcomeRows(p, extract)
  {
    if calls == [] {
      assert [] + [p] == [p] && [p][1..] == [];
    } else {
      assert (calls + [p])[0] == calls[0] && (calls + [p])[1..] == calls[1..] + [p];
      RowsOfSnoc(calls[1..], p, extract);
    }
  }

  /** The rows emitted are those of the successful scrape calls, in call
      order: when the rows so far are those of the calls so far, that stays
      so after any page list. */
  lemma {:induction false} VisitPagesRows(st: CrawlState, pages: seq<string>, extract: string -> Option<PageExtract>)
    requires st.rows == RowsOf(st.calls, extract)
    ensures VisitPages(st, pages, extract).rows == RowsOf(VisitPages(st, pages, extract).calls, extract)
    decreases pages
  {
    if pages != [] {
      var p := pages[0];
      VisitPageEffect(st, p, extract);
      if p !in st.visited {
        RowsOfSnoc(st.calls, p, extract);
      }
      VisitPagesRows(VisitPage(st, p, extract), pages[1..], extract);
    }
  }

  /** A seed with no discovered links whose page names one person and
      shows one address and one number yields exactly one row for that
      person, and the seed becomes visited. */
  lemma SinglePageScenario(
    seed: string, maxPages: int, person: string, email: string, phone: string,
    discover: (string, int) -> seq<string>, extract: string -> Option<PageExtract>)
    requires discover(seed, maxPages) == []
    requires extract(seed) == Some(PageExtract([person], [], [email], [phone]))
    requires !IsNoReply(email)
    ensures var r := VisitPages(CrawlState({}, [], []), PageList([seed], discover, maxPages), extract);
      && r.visited == {seed}
      && r.rows == [ContactRecord(Some(person), None, None, Some(email), Some(phone), seed)]
  {
    assert PageList([seed], discover, maxPages) == [seed] by {
      assert [seed][1..] == [];
    }
    assert FilterEmails([email]) == [email] by {
      assert [email][1..] == [];
    }
    assert Join([email], ", ") == email;
    assert Join([phone], ", ") == phone;
    var rec := PageRecord(seed, [person], [], [email], [phone]);
    assert |PageRows(rec)| == 1;
  }

  /** The row loop `for i in range(max(len(names), 1))` of one page. */
  method AppendPageRows(results: seq<ContactRecord>, rec: PageRecord) returns (out: seq<ContactRecord>)
    ensures out == results + PageRows(rec)
    ensures |out| == |results| + RowCount(rec)
  {
    out := results;
    for i := 0 to RowCount(rec)
      invariant out == results + PageRows(rec)[..i]
    {
      var name := if i < |rec.names| then Some(rec.names[i]) else None;
      var company := if rec.orgs != [] then Some(rec.orgs[0]) else None;
      assert PageRows(rec)[..i + 1] == PageRows(rec)[..i] + [PageRows(rec)[i]];
      out := out + [ContactRecord(name, None, company, JoinedOrNone(rec.emails), JoinedOrNone(rec.phones), rec.url)];
    }
    assert PageRows(rec)[..RowCount(rec)] == PageRows(rec);
  }

  /** The visited set of the scraper, kept in memory across batches and
      saved to the visited-links file at the end of each batch. */
  class Crawler {
    /** `visited_links` */
    var visited: set<string>
    /** The copy last written by `save_json(visited_links, VISITED_FILE)`. */
    var saved: set<string>

    /** `visited_links = load_json(VISITED_FILE)`: start from what was saved. */
    constructor (loaded: set<string>)
      ensures visited == loaded && saved == loaded
    {
      visited := loaded;
      saved := loaded;
    }

    /** One pass of the inner loop of `crawl_and_scrape`: skip a visited
        page; otherwise scrape it and, on success, mark it visited and
        append its rows. */
    method VisitOne(page: string, extract: string -> Option<PageExtract>, results: seq<ContactRecord>, ghost calls: seq<string>)
      returns (results': seq<ContactRecord>, ghost calls': seq<string>)
      modifies this
      ensures CrawlState(visited, results', calls') == VisitPage(CrawlState(old(visited), results, calls), page, extract)
      ensures saved == old(saved)
    {
      results', calls' := results, calls;
      if page in visited {
        return;
      }
      calls' := calls + [page];
      var data := ScrapePage(page, extract(page));
      if data.Some? {
        visited := visited + {page};
        results' := AppendPageRows(results, data.value);
      }
    }

    /** `crawl_and_scrape(url_batch, max_pages)`. `discover` stands for
        `get_links`, `extract` for fetching and scanning a page (`None`
        when that raised). The ghost `calls` logs every page handed to
        `scrape_page`. */
    method CrawlAndScrape(
      batch: seq<string>,
      maxPages: int,
      discover: (string, int) -> seq<string>,
      extract: string -> Option<PageExtract>)
      returns (results: seq<ContactRecord>, ghost calls: seq<string>)
      modifies this
      ensures CrawlState(visited, results, calls)
           == VisitPages(CrawlState(old(visited), [], []), PageList(batch, discover, maxPages), extract)
      ensures saved == visited
      ensures visited == old(visited) + Succeeded(PageList(batch, discover, maxPages), extract)
      ensures forall i | 0 <= i < |calls| :: calls[i] in PageList(batch, discover, maxPages) && calls[i] !in old(visited)
      ensures forall i, j | 0 <= i < j < |calls| && calls[i] == calls[j] :: extract(calls[i]).None?
      ensures forall p | p in PageList(batch, discover, maxPages) && p !in old(visited) :: p in calls
      ensures results == RowsOf(calls, extract)
    {
      results := [];
      calls := [];
      ghost var init := CrawlState(visited, [], []);
      ghost var final := VisitPages(init, PageList(batch, discover, maxPages), extract);
      assert batch[0..] == batch;
      for b := 0 to |batch|
        invariant VisitPages(CrawlState(visited, results, calls), PageList(batch[b..], discover, maxPages), extract) == final
      {
        var baseUrl := batch[b];
        var pages := [baseUrl] + discover(baseUrl, maxPages);
        ghost var rest := PageList(batch[b + 1..], discover, maxPages);
        assert PageList(batch[b..], discover, maxPages) == pages + rest by {
          assert batch[b..][0] == baseUrl && batch[b..][1..] == batch[b + 1..];
        }
        VisitPagesAppend(CrawlState(visited, results, calls), pages, rest, extract);
        for k := 0 to |pages|
          invariant VisitPages(VisitPages(CrawlState(visited, results, calls), pages[k..], extract), rest, extract) == final
        {
          assert pages[k..][0] == pages[k] && pages[k..][1..] == pages[k + 1..];
          results, calls := VisitOne(pages[k], extract, results, calls);
        }
        assert pages[|pages|..] == [];
      }
      assert batch[|batch|..] == [];
      saved := visited;

      var pagesAll := PageList(batch, discover, maxPages);
      VisitPagesVisited(init, pagesAll, extract);
      VisitPagesCalls(init, pagesAll, extract);
      VisitPagesScrapedOnce(init, pagesAll, extract);
      VisitPagesReachesAll(init, pagesAll, extract);
      VisitPagesRows(init, pagesAll, extract);
    }
  }
}
