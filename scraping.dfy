/**
 * `MediaScraper.scrape_range` (src/myanimelist_scraper/scraper.py): for every
 * listing page of the range, fetch it, optionally save it, cut out the
 * page's slice of titles, and for every title fetch its stats page and keep a
 * record when the stats are not empty.
 *
 * The site is an oracle, given as tables: what the attempts of `fetch_page`
 * on each URL yield, the matched title anchors of each listing page, and
 * the stat blocks of each stats page. Fetches, saved
 * file names, progress callbacks and pauses are recorded in order as effects.
 *
 * Three call sites in `scrape_range` do not match the definitions they
 * obviously mean, and each is modelled as the intended call:
 *  - `self.save_page(content, url)` names no method; `save_file` is meant;
 *  - `self.extract_media_list(...)` is spelled `extract_media_liist` where it is defined;
 *  - `self.extract_stats(stats_url, save_html)` passes a second argument
 *    that the one-argument `extract_stats` does not take; the stats page is
 *    fetched and read, and never saved.
 */
module Scraping {
  import opened Wrappers
  import opened Paging
  import opened Config
  import opened PageFiles
  import opened Fetching
  import opened Extraction
  import opened Uri

  /**
   * The network and the HTML parser, seen from the scraper, as tables: the
   * answers to the attempts on each URL, the matched title anchors of each
   * listing page, and the stat blocks of each stats page.
   */
  datatype Site = Site(
    answers: map<string, seq<Attempt>>,
    listings: map<string, seq<Anchor>>,
    statPages: map<string, Blocks>)

  /** What the attempts on `url` yield; every attempt on a URL not in the table fails. */
  function AnswersAt(site: Site, url: string): seq<Attempt> {
    if url in site.answers then site.answers[url] else []
  }

  /** The anchors matched on the listing page `html`. */
  function AnchorsOf(site: Site, html: string): seq<Anchor> {
    if html in site.listings then site.listings[html] else []
  }

  /**
   * One call `scrape_range(start, end, save_html, progress_callback)` on a
   * scraper for `mediaType`, with or without a storage; only whether a
   * callback is given matters.
   */
  datatype Job = Job(mediaType: MediaType, hasStorage: bool, range: ScrapingRange, saveHtml: bool, hasCallback: bool)

  /** What the scraper does to the outside world, in order. */
  datatype Effect =
    | FetchedPage(page: int, url: string, events: seq<Event>)
    | FetchedStats(url: string, events: seq<Event>)
    | Saved(url: string)  // `save_file(content, url)`, which writes `SaveFileName(hasStorage, mediaType, url)`
    | Progress(current: int, total: int)
    | Pause(seconds: nat)


  /** An appended record, before it is written out as a dict. */
  datatype Row = Row(name: string, url: string, statsUrl: string, rank: int, stats: map<string, Value>)

  /** The `item_data` dict: the four base keys, then the stats, which win on a clash. */
  function ItemData(row: Row): map<string, Value> {
    map["name" := StrValue(row.name), "url" := StrValue(row.url),
        "stats_url" := StrValue(row.statsUrl), "rank" := IntValue(row.rank)] + row.stats
  }

  /** `all_items`: the dict of every row, in order. */
  function Dicts(rows: seq<Row>): (ds: seq<map<string, Value>>)
    ensures |ds| == |rows|
  {
    if rows == [] then [] else Dicts(rows[..|rows| - 1]) + [ItemData(rows[|rows| - 1])]
  }

  /** Appending a row appends its dict. */
  lemma {:induction false} DictsSnoc(rows: seq<Row>, row: Row)
    ensures Dicts(rows + [row]) == Dicts(rows) + [ItemData(row)]
  {
    assert (rows + [row])[..|rows|] == rows;
  }

  /** The dict at position `k` is the dict of row `k`. */
  lemma {:induction false} DictsAt(rows: seq<Row>, k: nat)
    requires k < |rows|
    ensures Dicts(rows)[k] == ItemData(rows[k])
    decreases |rows|
  {
    if k < |rows| - 1 {
      DictsAt(rows[..|rows| - 1], k);
    }
  }

  /** `all_items` (as rows) and the effects so far. */
  datatype Run = Run(rows: seq<Row>, effects: seq<Effect>)

  predicate HasContent(content: Option<string>) {
    content.Some? && content.value != ""
  }

  // ---- What the site answers ----
  // The site answers a URL the same way whenever it is asked, so what every
  // fetch of a run yields can be worked out before the loops run.

  /** What `extract_stats(url)` gives: the URL, the stats read, the events of the fetch. */
  datatype StatsOutcome = StatsOutcome(url: string, stats: map<string, Value>, events: seq<Event>)

  /** A title of a listing page, its progress figure `current_item`, and what its stats page gave. */
  datatype Title = Title(entry: Entry, current: int, outcome: StatsOutcome)

  /** What one listing page gives: its URL, what its fetch returned after which attempts, and its titles in range. */
  datatype PageOutcome = PageOutcome(
    url: string, content: Option<string>, events: seq<Event>, titles: seq<Title>)

  /** The stats `extract_stats` returns for what the fetch of the stats page gave. */
  function StatsFrom(site: Site, content: Option<string>): map<string, Value>
  {
    if HasContent(content) then StatsOf(BlocksOf(site.statPages, content.value)) else map[]
  }

  /** `extract_stats(statsUrl)` on the site. */
  function StatsOutcomeAt(site: Site, rateLimit: nat, statsUrl: string): (o: StatsOutcome)
    ensures o.url == statsUrl
  {
    var fetched := FetchFrom(AnswersAt(site, statsUrl), DefaultRetries, rateLimit, 0);
    StatsOutcome(statsUrl, StatsFrom(site, fetched.0), fetched.1)
  }

  /** Each title, numbered on from `before`, with the stats read from `statsUrlOf(url)`. */
  function TitlesOf(site: Site, statsUrlOf: string -> string, rateLimit: nat, entries: seq<Entry>, before: int): seq<Title> {
    seq(|entries|, k requires 0 <= k < |entries| =>
          Title(entries[k], before + k + 1, StatsOutcomeAt(site, rateLimit, statsUrlOf(entries[k].url))))
  }

  function StartPage(job: Job): int {
    GetPages(job.range, Configs(job.mediaType).itemsPerPage).0
  }

  function EndPage(job: Job): int {
    GetPages(job.range, Configs(job.mediaType).itemsPerPage).1
  }

  /** `k * n`, as repeated addition (which keeps the solver's arithmetic linear). */
  function Times(k: int, n: int): int
    decreases if k < 0 then -k else k
  {
    if k == 0 then 0 else if k > 0 then Times(k - 1, n) + n else Times(k + 1, n) - n
  }

  lemma {:induction false} TimesMul(k: int, n: int)
    ensures Times(k, n) == k * n
    decreases if k < 0 then -k else k
  {
    if k > 0 {
      TimesMul(k - 1, n);
    } else if k < 0 {
      TimesMul(k + 1, n);
    }
  }

  /** `(page - start_page) * items_per_page`, the titles on the pages of the run before `page`. */
  function ItemsBefore(job: Job, page: int): int {
    Times(page - StartPage(job), Configs(job.mediaType).itemsPerPage)
  }

  /** `current_item`, the progress figure of title `i` of `page`. */
  function CurrentItem(job: Job, page: int, i: int): int {
    ItemsBefore(job, page) + i + 1
  }

  /** The titles of a fetched listing page that lie in the range. */
  function PageEntries(job: Job, site: Site, page: int, content: string): seq<Entry> {
    var slice := GetPageSlice(job.range, page, Configs(job.mediaType).itemsPerPage);
    Listing(AnchorsOf(site, content), slice.0, Some(slice.1))
  }

  /** Listing page `page` on the site: no titles when its fetch gave nothing. */
  function PageOutcomeOf(job: Job, site: Site, statsUrlOf: string -> string, page: int): PageOutcome
  {
    var cfg := Configs(job.mediaType);
    var url := GetPageUrl(cfg, page);
    var fetched := FetchFrom(AnswersAt(site, url), DefaultRetries, cfg.rateLimit, 0);
    var entries := if HasContent(fetched.0) then PageEntries(job, site, page, fetched.0.value) else [];
    PageOutcome(url, fetched.0, fetched.1,
                TitlesOf(site, statsUrlOf, cfg.rateLimit, entries, ItemsBefore(job, page)))
  }

  /** How many pages `range(start_page, end_page + 1)` visits. */
  function PageCount(job: Job): nat {
    if EndPage(job) < StartPage(job) then 0 else EndPage(job) - StartPage(job) + 1
  }

  // ---- The two loops, over what the site answers ----

  /** One pass of the inner loop, for title `t`. */
  function ItemStep(job: Job, t: Title, run: Run): Run {
    var o := t.outcome;
    var fetched := FetchedStats(o.url, o.events);
    var pause := Pause(Configs(job.mediaType).rateLimit);
    if o.stats == map[] then Run(run.rows, run.effects + [fetched, pause])
    else
      var row := Row(t.entry.name, t.entry.url, o.url, job.range.start + |run.rows|, o.stats);
      var reported := if job.hasCallback then [fetched, Progress(t.current, TotalItems(job.range)), pause] else [fetched, pause];
      Run(run.rows + [row], run.effects + reported)
  }

  /** The inner loop after the first `j` titles of a page. */
  function ItemsUpTo(job: Job, titles: seq<Title>, j: nat, start: Run): Run
    requires j <= |titles|
  {
    if j == 0 then start
    else ItemStep(job, titles[j - 1], ItemsUpTo(job, titles, j - 1, start))
  }

  /** One pass of the outer loop, for `page`, which gave `o`. */
  function PageStep(job: Job, page: int, o: PageOutcome, run: Run): Run {
    var fetched := FetchedPage(page, o.url, o.events);
    if !HasContent(o.content) then Run(run.rows, run.effects + [fetched])
    else
      var begun := if job.saveHtml then [fetched, Saved(o.url)] else [fetched];
      ItemsUpTo(job, o.titles, |o.titles|, Run(run.rows, run.effects + begun))
  }

  /** The outer loop after the first `count` pages from `first`. */
  function PagesUpTo(job: Job, first: int, pages: seq<PageOutcome>, count: nat): Run
    requires count <= |pages|
  {
    if count == 0 then Run([], [])
    else PageStep(job, first + count - 1, pages[count - 1], PagesUpTo(job, first, pages, count - 1))
  }

  /** The pages of the whole run. */
  function RunPages(job: Job, site: Site, statsUrlOf: string -> string): seq<PageOutcome>
  {
    seq(PageCount(job), k requires 0 <= k < PageCount(job) => PageOutcomeOf(job, site, statsUrlOf, StartPage(job) + k))
  }

  /** The whole run of `scrape_range`. */
  function ScrapeRun(job: Job, site: Site, statsUrlOf: string -> string): Run
  {
    PagesUpTo(job, StartPage(job), RunPages(job, site, statsUrlOf), PageCount(job))
  }

  // ---- The loops as the source writes them ----

  /** One more pass of the inner loop. */
  lemma {:induction false} ItemsUpToNext(job: Job, titles: seq<Title>, i: nat, start: Run, before: Run)
    requires i < |titles| && before == ItemsUpTo(job, titles, i, start)
    ensures ItemsUpTo(job, titles, i + 1, start) == ItemStep(job, titles[i], before)
  {
  }

  /** One more pass of the outer loop. */
  lemma {:induction false} PagesUpToNext(job: Job, first: int, pages: seq<PageOutcome>, k: nat, before: Run)
    requires k < |pages| && before == PagesUpTo(job, first, pages, k)
    ensures PagesUpTo(job, first, pages, k + 1) == PageStep(job, first + k, pages[k], before)
  {
  }

  /** `extract_stats` on the site. */
  method FetchStats(site: Site, rateLimit: nat, statsUrl: string) returns (o: StatsOutcome)
    ensures o == StatsOutcomeAt(site, rateLimit, statsUrl)
  {
    var stats, trace := ExtractStats(AnswersAt(site, statsUrl), rateLimit, site.statPages);
    o := StatsOutcome(statsUrl, stats, trace);
  }

  /** One pass of the inner loop of `scrape_range`, for the title `entry` numbered `current`, whose stats are at `statsUrl`. */
  method ScrapeItem(job: Job, site: Site, current: int, entry: Entry, statsUrl: string, ghost t: Title,
                    items0: seq<map<string, Value>>, ghost rows0: seq<Row>, effects0: seq<Effect>)
    returns (allItems: seq<map<string, Value>>, ghost rows: seq<Row>, effects: seq<Effect>)
    requires t == Title(entry, current, StatsOutcomeAt(site, Configs(job.mediaType).rateLimit, statsUrl))
    requires items0 == Dicts(rows0)
    ensures allItems == Dicts(rows)
    ensures Run(rows, effects) == ItemStep(job, t, Run(rows0, effects0))
  {
    var o := FetchStats(site, Configs(job.mediaType).rateLimit, statsUrl);
    allItems, rows, effects := RecordItem(job, current, entry, o, items0, rows0, effects0);
  }

  /** The inner loop's pass once `extract_stats` gave `o`: the record, if any, and the effects. */
  method RecordItem(job: Job, current: int, entry: Entry, o: StatsOutcome,
                    items0: seq<map<string, Value>>, ghost rows0: seq<Row>, effects0: seq<Effect>)
    returns (allItems: seq<map<string, Value>>, ghost rows: seq<Row>, effects: seq<Effect>)
    requires items0 == Dicts(rows0)
    ensures allItems == Dicts(rows)
    ensures Run(rows, effects) == ItemStep(job, Title(entry, current, o), Run(rows0, effects0))
  {
    var cfg := Configs(job.mediaType);
    var fetched := FetchedStats(o.url, o.events);
    var pause := Pause(cfg.rateLimit);
    if o.stats == map[] {
      return items0, rows0, effects0 + [fetched, pause];
    }
    var row := Row(entry.name, entry.url, o.url, job.range.start + |items0|, o.stats);
    DictsSnoc(rows0, row);
    allItems, rows := items0 + [ItemData(row)], rows0 + [row];
    if job.hasCallback {
      effects := effects0 + [fetched, Progress(current, TotalItems(job.range)), pause];
    } else {
      effects := effects0 + [fetched, pause];
    }
  }

  /** The inner loop's pass for title `i` of `entries`, after `before` titles on earlier pages: its `current_item` and its `stats_url`. */
  method ScrapeTitle(job: Job, site: Site, statsUrlOf: string -> string, before: int, entries: seq<Entry>, i: nat,
                     items0: seq<map<string, Value>>, ghost rows0: seq<Row>, effects0: seq<Effect>)
    returns (allItems: seq<map<string, Value>>, ghost rows: seq<Row>, effects: seq<Effect>)
    requires items0 == Dicts(rows0) && i < |entries|
    ensures allItems == Dicts(rows)
    ensures Run(rows, effects)
            == ItemStep(job, TitlesOf(site, statsUrlOf, Configs(job.mediaType).rateLimit, entries, before)[i],
                        Run(rows0, effects0))
  {
    var statsUrl := statsUrlOf(entries[i].url);
    var current := before + i + 1;
    ghost var t := TitlesOf(site, statsUrlOf, Configs(job.mediaType).rateLimit, entries, before)[i];
    allItems, rows, effects := ScrapeItem(job, site, current, entries[i], statsUrl, t, items0, rows0, effects0);
  }

  /** The inner loop of `scrape_range` over the titles of a page, after `before` titles on earlier pages. */
  method ScrapeItems(job: Job, site: Site, statsUrlOf: string -> string, before: int, entries: seq<Entry>,
                     items0: seq<map<string, Value>>, ghost rows0: seq<Row>, effects0: seq<Effect>)
    returns (allItems: seq<map<string, Value>>, ghost rows: seq<Row>, effects: seq<Effect>)
    requires items0 == Dicts(rows0)
    ensures allItems == Dicts(rows)
    ensures Run(rows, effects)
            == ItemsUpTo(job, TitlesOf(site, statsUrlOf, Configs(job.mediaType).rateLimit, entries, before),
                         |entries|, Run(rows0, effects0))
  {
    ghost var titles := TitlesOf(site, statsUrlOf, Configs(job.mediaType).rateLimit, entries, before);
    allItems, rows, effects := items0, rows0, effects0;
    var i := 0;
    while i < |entries|
      invariant 0 <= i <= |entries|
      invariant allItems == Dicts(rows)
      invariant Run(rows, effects) == ItemsUpTo(job, titles, i, Run(rows0, effects0))
    {
      ghost var run := Run(rows, effects);
      allItems, rows, effects := ScrapeTitle(job, site, statsUrlOf, before, entries, i, allItems, rows, effects);
      ItemsUpToNext(job, titles, i, Run(rows0, effects0), run);
      i := i + 1;
    }
  }

  /** One pass of the outer loop of `scrape_range`, for `page`, the `k`-th of the run's `pages`. */
  method ScrapePage(job: Job, site: Site, statsUrlOf: string -> string, page: int, ghost pages: seq<PageOutcome>, ghost k: nat,
                    items0: seq<map<string, Value>>, ghost rows0: seq<Row>, effects0: seq<Effect>)
    returns (allItems: seq<map<string, Value>>, ghost rows: seq<Row>, effects: seq<Effect>)
    requires pages == RunPages(job, site, statsUrlOf) && k < |pages| && page == StartPage(job) + k
    requires items0 == Dicts(rows0)
    ensures allItems == Dicts(rows)
    ensures Run(rows, effects) == PageStep(job, page, pages[k], Run(rows0, effects0))
  {
    var cfg := Configs(job.mediaType);
    var url := GetPageUrl(cfg, page);
    var content, trace := FetchPage(AnswersAt(site, url), DefaultRetries, cfg.rateLimit);
    assert pages[k] == PageOutcomeOf(job, site, statsUrlOf, page);
    allItems, rows, effects := ScrapeContent(job, site, statsUrlOf, page, url, content, trace, items0, rows0, effects0);
  }

  /** The rest of the outer loop's pass for `page`, once `fetch_page` gave `content` after the attempts in `trace`. */
  method ScrapeContent(job: Job, site: Site, statsUrlOf: string -> string, page: int,
                       url: string, content: Option<string>, trace: seq<Event>,
                       items0: seq<map<string, Value>>, ghost rows0: seq<Row>, effects0: seq<Effect>)
    returns (allItems: seq<map<string, Value>>, ghost rows: seq<Row>, effects: seq<Effect>)
    requires items0 == Dicts(rows0)
    ensures allItems == Dicts(rows)
    ensures var entries := if HasContent(content) then PageEntries(job, site, page, content.value) else [];
            Run(rows, effects)
            == PageStep(job, page,
                        PageOutcome(url, content, trace,
                                    TitlesOf(site, statsUrlOf, Configs(job.mediaType).rateLimit, entries, ItemsBefore(job, page))),
                        Run(rows0, effects0))
  {
    var cfg := Configs(job.mediaType);
    var fetched := FetchedPage(page, url, trace);
    if content.None? || content.value == "" {
      return items0, rows0, effects0 + [fetched];
    }
    var begun := if job.saveHtml then [fetched, Saved(url)] else [fetched];
    var slice := GetPageSlice(job.range, page, cfg.itemsPerPage);
    var entries := ExtractMediaList(AnchorsOf(site, content.value), slice.0, Some(slice.1));
    var before := (page - GetPages(job.range, cfg.itemsPerPage).0) * cfg.itemsPerPage;
    TimesMul(page - StartPage(job), cfg.itemsPerPage);
    assert before == ItemsBefore(job, page);
    ghost var titles := TitlesOf(site, statsUrlOf, cfg.rateLimit, entries, before);
    assert |titles| == |entries|;
    allItems, rows, effects := ScrapeItems(job, site, statsUrlOf, before, entries, items0, rows0, effects0 + begun);
  }

  /** Page `StartPage(job) + k` of the run, after the pages before it. */
  method ScrapeNextPage(job: Job, site: Site, statsUrlOf: string -> string, ghost pages: seq<PageOutcome>, k: nat,
                        items0: seq<map<string, Value>>, ghost rows0: seq<Row>, effects0: seq<Effect>)
    returns (allItems: seq<map<string, Value>>, ghost rows: seq<Row>, effects: seq<Effect>)
    requires items0 == Dicts(rows0)
    requires pages == RunPages(job, site, statsUrlOf) && k < |pages|
    requires Run(rows0, effects0) == PagesUpTo(job, StartPage(job), pages, k)
    ensures allItems == Dicts(rows)
    ensures Run(rows, effects) == PagesUpTo(job, StartPage(job), pages, k + 1)
  {
    allItems, rows, effects := ScrapePage(job, site, statsUrlOf, StartPage(job) + k, pages, k, items0, rows0, effects0);
    PagesUpToNext(job, StartPage(job), pages, k, Run(rows0, effects0));
  }

  /** The outer loop of `scrape_range`, with the stats page of a title at `statsUrlOf(url)`. */
  method ScrapePages(job: Job, site: Site, statsUrlOf: string -> string)
    returns (allItems: seq<map<string, Value>>, effects: seq<Effect>)
    ensures allItems == Dicts(ScrapeRun(job, site, statsUrlOf).rows)
    ensures effects == ScrapeRun(job, site, statsUrlOf).effects
  {
    var cfg := Configs(job.mediaType);
    var startPage, endPage := GetPages(job.range, cfg.itemsPerPage).0, GetPages(job.range, cfg.itemsPerPage).1;
    ghost var pages := RunPages(job, site, statsUrlOf);
    allItems, effects := [], [];
    ghost var rows: seq<Row> := [];
    var page := startPage;
    while page <= endPage
      invariant startPage <= page && (page <= endPage + 1 || page == startPage)
      invariant allItems == Dicts(rows) && Run(rows, effects) == PagesUpTo(job, startPage, pages, page - startPage)
      decreases endPage - page
    {
      allItems, rows, effects := ScrapeNextPage(job, site, statsUrlOf, pages, page - startPage, allItems, rows, effects);
      page := page + 1;
    }
  }

  /** `scrape_range`; the range is taken as given, without any check. */
  method ScrapeRange(job: Job, site: Site) returns (allItems: seq<map<string, Value>>, effects: seq<Effect>)
    ensures allItems == Dicts(ScrapeRun(job, site, JoinStats).rows)
    ensures effects == ScrapeRun(job, site, JoinStats).effects
  {
    allItems, effects := ScrapePages(job, site, JoinStats);
  }
}
