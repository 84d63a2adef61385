/**
 * What `scrape_range` promises about its result (src/myanimelist_scraper/scraper.py):
 * ranks are handed out without gaps, a title whose stats page gives nothing
 * is dropped and reported to no one, a page that cannot be fetched is skipped
 * and the pages after it are still visited, and the callback is called once
 * per kept record.
 */
module RangeFacts {
  import opened Paging
  import opened Config
  import opened Extraction
  import opened Scraping

  /** How many times the progress callback was called. */
  function Callbacks(effects: seq<Effect>): nat {
    if effects == [] then 0
    else Callbacks(effects[..|effects| - 1]) + (if effects[|effects| - 1].Progress? then 1 else 0)
  }

  /** The listing pages fetched, in order. */
  function VisitedPages(effects: seq<Effect>): seq<int> {
    if effects == [] then []
    else
      var last := effects[|effects| - 1];
      VisitedPages(effects[..|effects| - 1]) + (if last.FetchedPage? then [last.page] else [])
  }

  lemma {:induction false} EffectsSnoc(effects: seq<Effect>, e: Effect)
    ensures Callbacks(effects + [e]) == Callbacks(effects) + (if e.Progress? then 1 else 0)
    ensures VisitedPages(effects + [e]) == VisitedPages(effects) + (if e.FetchedPage? then [e.page] else [])
  {
    assert (effects + [e])[..|effects|] == effects;
  }

  /** Two or three effects in a row, as one pass of a loop appends them. */
  lemma {:induction false} Chunk2(effects: seq<Effect>, a: Effect, b: Effect)
    ensures Callbacks(effects + [a, b]) == Callbacks(effects) + (if a.Progress? then 1 else 0) + (if b.Progress? then 1 else 0)
    ensures VisitedPages(effects + [a, b])
            == VisitedPages(effects) + (if a.FetchedPage? then [a.page] else []) + (if b.FetchedPage? then [b.page] else [])
  {
    EffectsSnoc(effects, a);
    EffectsSnoc(effects + [a], b);
    assert effects + [a, b] == effects + [a] + [b];
  }

  lemma {:induction false} Chunk3(effects: seq<Effect>, a: Effect, b: Effect, c: Effect)
    requires !a.Progress? && !c.Progress? && !a.FetchedPage? && !b.FetchedPage? && !c.FetchedPage?
    ensures Callbacks(effects + [a, b, c]) == Callbacks(effects) + (if b.Progress? then 1 else 0)
    ensures VisitedPages(effects + [a, b, c]) == VisitedPages(effects)
  {
    Chunk2(effects, a, b);
    EffectsSnoc(effects + [a, b], c);
    assert effects + [a, b, c] == effects + [a, b] + [c];
  }

  /** Every kept record has stats, and they carry the ranks `start, start + 1, ...`. */
  predicate Ranked(job: Job, rows: seq<Row>) {
    forall k :: 0 <= k < |rows| ==> rows[k].rank == job.range.start + k && rows[k].stats != map[]
  }

  /** One callback per record when there is a callback, none otherwise. */
  predicate Reported(job: Job, run: Run) {
    Callbacks(run.effects) == (if job.hasCallback then |run.rows| else 0)
  }

  /** A title's record is appended exactly when its stats are not empty, with the next rank. */
  lemma {:induction false} ItemStepRows(job: Job, t: Title, run: Run)
    ensures var r := ItemStep(job, t, run);
            && r.rows[..|run.rows|] == run.rows
            && |r.rows| == |run.rows| + (if t.outcome.stats == map[] then 0 else 1)
            && (t.outcome.stats != map[] ==>
                  r.rows[|run.rows|].rank == job.range.start + |run.rows| && r.rows[|run.rows|].stats != map[])
  {
  }

  /** The records stay ranked without gaps. */
  lemma {:induction false} ItemStepRanked(job: Job, t: Title, run: Run)
    requires Ranked(job, run.rows)
    ensures Ranked(job, ItemStep(job, t, run).rows)
  {
    var r := ItemStep(job, t, run);
    ItemStepRows(job, t, run);
    forall k | 0 <= k < |r.rows| ensures r.rows[k].rank == job.range.start + k && r.rows[k].stats != map[] {
      if k < |run.rows| {
        assert r.rows[k] == r.rows[..|run.rows|][k];
      }
    }
  }

  /** The callback is called exactly when the title is kept and there is a callback; no listing page is fetched. */
  lemma {:induction false} ItemStepEffects(job: Job, t: Title, run: Run)
    ensures var r := ItemStep(job, t, run);
            && Callbacks(r.effects) == Callbacks(run.effects) + (if t.outcome.stats != map[] && job.hasCallback then 1 else 0)
            && VisitedPages(r.effects) == VisitedPages(run.effects)
  {
    var o := t.outcome;
    var fetched := FetchedStats(o.url, o.events);
    var pause := Pause(Configs(job.mediaType).rateLimit);
    if o.stats != map[] && job.hasCallback {
      Chunk3(run.effects, fetched, Progress(t.current, TotalItems(job.range)), pause);
    } else {
      Chunk2(run.effects, fetched, pause);
    }
  }

  /** A title with empty stats is not appended, and the callback is not called for it. */
  lemma {:induction false} EmptyStatsSkipped(job: Job, t: Title, run: Run)
    requires t.outcome.stats == map[]
    ensures var r := ItemStep(job, t, run);
            r.rows == run.rows && Callbacks(r.effects) == Callbacks(run.effects)
  {
    ItemStepEffects(job, t, run);
  }

  /** The inner loop keeps the earlier records and adds at most one per title, ranked on. */
  lemma {:induction false} ItemsUpToRows(job: Job, titles: seq<Title>, j: nat, start: Run)
    requires j <= |titles| && Ranked(job, start.rows)
    ensures var r := ItemsUpTo(job, titles, j, start);
            && Ranked(job, r.rows)
            && |start.rows| <= |r.rows| <= |start.rows| + j
            && r.rows[..|start.rows|] == start.rows
  {
    if j > 0 {
      var before := ItemsUpTo(job, titles, j - 1, start);
      ItemsUpToRows(job, titles, j - 1, start);
      ItemStepRows(job, titles[j - 1], before);
      ItemStepRanked(job, titles[j - 1], before);
      var r := ItemsUpTo(job, titles, j, start);
      assert r.rows[..|start.rows|] == r.rows[..|before.rows|][..|start.rows|];
    }
  }

  /** The inner loop calls the callback once per record it adds. */
  lemma {:induction false} ItemsUpToReported(job: Job, titles: seq<Title>, j: nat, start: Run)
    requires j <= |titles| && Reported(job, start)
    ensures Reported(job, ItemsUpTo(job, titles, j, start))
  {
    if j > 0 {
      var before := ItemsUpTo(job, titles, j - 1, start);
      ItemsUpToReported(job, titles, j - 1, start);
      ItemStepRows(job, titles[j - 1], before);
      ItemStepEffects(job, titles[j - 1], before);
    }
  }

  /** The inner loop fetches no listing page. */
  lemma {:induction false} ItemsUpToVisited(job: Job, titles: seq<Title>, j: nat, start: Run)
    requires j <= |titles|
    ensures VisitedPages(ItemsUpTo(job, titles, j, start).effects) == VisitedPages(start.effects)
  {
    if j > 0 {
      ItemsUpToVisited(job, titles, j - 1, start);
      ItemStepEffects(job, titles[j - 1], ItemsUpTo(job, titles, j - 1, start));
    }
  }

  /** What a page appends before its titles: its fetch and, with `save_html`, its file. */
  function Opened(job: Job, page: int, o: PageOutcome): seq<Effect> {
    if job.saveHtml then [FetchedPage(page, o.url, o.events), Saved(o.url)] else [FetchedPage(page, o.url, o.events)]
  }

  lemma {:induction false} OpenedEffects(job: Job, page: int, o: PageOutcome, effects: seq<Effect>)
    ensures Callbacks(effects + Opened(job, page, o)) == Callbacks(effects)
    ensures VisitedPages(effects + Opened(job, page, o)) == VisitedPages(effects) + [page]
  {
    var fetched := FetchedPage(page, o.url, o.events);
    if job.saveHtml {
      Chunk2(effects, fetched, Saved(o.url));
    } else {
      EffectsSnoc(effects, fetched);
    }
  }

  /** One page keeps the earlier records and adds at most one per title in its slice, ranked on. */
  lemma {:induction false} PageStepRows(job: Job, page: int, o: PageOutcome, run: Run)
    requires Ranked(job, run.rows)
    ensures var r := PageStep(job, page, o, run);
            && Ranked(job, r.rows)
            && |run.rows| <= |r.rows| <= |run.rows| + |o.titles|
            && r.rows[..|run.rows|] == run.rows
  {
    if HasContent(o.content) {
      assert PageStep(job, page, o, run) == ItemsUpTo(job, o.titles, |o.titles|, Run(run.rows, run.effects + Opened(job, page, o)));
      ItemsUpToRows(job, o.titles, |o.titles|, Run(run.rows, run.effects + Opened(job, page, o)));
    }
  }

  /** One page calls the callback once per record it adds. */
  lemma {:induction false} PageStepReported(job: Job, page: int, o: PageOutcome, run: Run)
    requires Reported(job, run)
    ensures Reported(job, PageStep(job, page, o, run))
  {
    if HasContent(o.content) {
      var begun := Run(run.rows, run.effects + Opened(job, page, o));
      assert PageStep(job, page, o, run) == ItemsUpTo(job, o.titles, |o.titles|, begun);
      OpenedEffects(job, page, o, run.effects);
      ItemsUpToReported(job, o.titles, |o.titles|, begun);
    } else {
      EffectsSnoc(run.effects, FetchedPage(page, o.url, o.events));
    }
  }

  /** One page is fetched once, whatever it gave. */
  lemma {:induction false} PageStepVisited(job: Job, page: int, o: PageOutcome, run: Run)
    ensures VisitedPages(PageStep(job, page, o, run).effects) == VisitedPages(run.effects) + [page]
  {
    if HasContent(o.content) {
      var begun := Run(run.rows, run.effects + Opened(job, page, o));
      assert PageStep(job, page, o, run) == ItemsUpTo(job, o.titles, |o.titles|, begun);
      OpenedEffects(job, page, o, run.effects);
      ItemsUpToVisited(job, o.titles, |o.titles|, begun);
    } else {
      EffectsSnoc(run.effects, FetchedPage(page, o.url, o.events));
    }
  }

  /** A page whose fetch gave nothing adds no record and no callback; only its fetch is recorded. */
  lemma {:induction false} FailedPageSkipped(job: Job, page: int, o: PageOutcome, run: Run)
    requires !HasContent(o.content)
    ensures var r := PageStep(job, page, o, run);
            && r.rows == run.rows && Callbacks(r.effects) == Callbacks(run.effects)
            && VisitedPages(r.effects) == VisitedPages(run.effects) + [page]
  {
    EffectsSnoc(run.effects, FetchedPage(page, o.url, o.events));
  }

  /** The number of titles in range on the first `count` pages. */
  function TitleCount(pages: seq<PageOutcome>, count: nat): nat
    requires count <= |pages|
  {
    if count == 0 then 0 else TitleCount(pages, count - 1) + |pages[count - 1].titles|
  }

  /** The outer loop keeps the records ranked, with at most one per title in range. */
  lemma {:induction false} PagesRows(job: Job, first: int, pages: seq<PageOutcome>, count: nat)
    requires count <= |pages|
    ensures var r := PagesUpTo(job, first, pages, count);
            Ranked(job, r.rows) && |r.rows| <= TitleCount(pages, count)
  {
    if count > 0 {
      PagesRows(job, first, pages, count - 1);
      PageStepRows(job, first + count - 1, pages[count - 1], PagesUpTo(job, first, pages, count - 1));
    }
  }

  /** The outer loop calls the callback once per record. */
  lemma {:induction false} PagesReported(job: Job, first: int, pages: seq<PageOutcome>, count: nat)
    requires count <= |pages|
    ensures Reported(job, PagesUpTo(job, first, pages, count))
  {
    if count > 0 {
      PagesReported(job, first, pages, count - 1);
      PagesUpToReported(job, first, pages, count);
    }
  }

  /** Pass `count` of the outer loop keeps one callback per record. */
  lemma {:induction false} PagesUpToReported(job: Job, first: int, pages: seq<PageOutcome>, count: nat)
    requires 0 < count <= |pages| && Reported(job, PagesUpTo(job, first, pages, count - 1))
    ensures Reported(job, PagesUpTo(job, first, pages, count))
  {
    var before := PagesUpTo(job, first, pages, count - 1);
    PagesUpToNext(job, first, pages, count - 1, before);
    PageStepReported(job, first + count - 1, pages[count - 1], before);
  }

  /** The outer loop visits every page in turn, whatever the earlier ones gave. */
  lemma {:induction false} PagesVisited(job: Job, first: int, pages: seq<PageOutcome>, count: nat)
    requires count <= |pages|
    ensures VisitedPages(PagesUpTo(job, first, pages, count).effects) == PageRange(first, count)
  {
    if count > 0 {
      PagesVisited(job, first, pages, count - 1);
      PagesUpToVisited(job, first, pages, count);
    }
  }

  /** Pass `count` of the outer loop fetches page `first + count - 1`. */
  lemma {:induction false} PagesUpToVisited(job: Job, first: int, pages: seq<PageOutcome>, count: nat)
    requires 0 < count <= |pages|
    ensures VisitedPages(PagesUpTo(job, first, pages, count).effects)
            == VisitedPages(PagesUpTo(job, first, pages, count - 1).effects) + [first + count - 1]
  {
    PageStepVisited(job, first + count - 1, pages[count - 1], PagesUpTo(job, first, pages, count - 1));
  }

  /** `range(first, first + count)`. */
  function PageRange(first: int, count: nat): (r: seq<int>)
    ensures |r| == count && forall k :: 0 <= k < count ==> r[k] == first + k
  {
    if count == 0 then [] else PageRange(first, count - 1) + [first + count - 1]
  }

  /** The `k`-th record has rank `start + k` and non-empty stats; its dict says so unless the stats have their own `rank`. */
  lemma {:induction false} RanksCompact(job: Job, site: Site, statsUrlOf: string -> string)
    ensures var rows := ScrapeRun(job, site, statsUrlOf).rows;
            forall k :: 0 <= k < |rows| ==>
              && rows[k].rank == job.range.start + k && rows[k].stats != map[]
              && Dicts(rows)[k] == ItemData(rows[k])
              && ("rank" !in rows[k].stats ==> ItemData(rows[k])["rank"] == IntValue(job.range.start + k))
  {
    var rows := ScrapeRun(job, site, statsUrlOf).rows;
    PagesRows(job, StartPage(job), RunPages(job, site, statsUrlOf), PageCount(job));
    forall k | 0 <= k < |rows| ensures Dicts(rows)[k] == ItemData(rows[k]) {
      DictsAt(rows, k);
    }
  }

  /** The progress callback is called exactly once per appended record, and never without a callback. */
  lemma {:induction false} OneCallbackPerRecord(job: Job, site: Site, statsUrlOf: string -> string)
    ensures Callbacks(ScrapeRun(job, site, statsUrlOf).effects) == (if job.hasCallback then |ScrapeRun(job, site, statsUrlOf).rows| else 0)
  {
    PagesReported(job, StartPage(job), RunPages(job, site, statsUrlOf), PageCount(job));
  }

  /** Every page from `start_page` to `end_page` is fetched once, in order, even after failed pages. */
  lemma {:induction false} EveryPageVisited(job: Job, site: Site, statsUrlOf: string -> string)
    ensures VisitedPages(ScrapeRun(job, site, statsUrlOf).effects) == PageRange(StartPage(job), PageCount(job))
  {
    PagesVisited(job, StartPage(job), RunPages(job, site, statsUrlOf), PageCount(job));
  }

  /** A listing page contributes no more titles than its slice. */
  lemma {:induction false} PageTitlesBound(job: Job, site: Site, statsUrlOf: string -> string, page: int)
    requires ValidRange(job.range)
    requires StartPage(job) <= page <= EndPage(job)
    ensures var slice := GetPageSlice(job.range, page, Configs(job.mediaType).itemsPerPage);
            |PageOutcomeOf(job, site, statsUrlOf, page).titles| <= slice.1 - slice.0
  {
    var n := Configs(job.mediaType).itemsPerPage;
    var slice := GetPageSlice(job.range, page, n);
    SliceWithinPage(job.range, n, page);
    var o := PageOutcomeOf(job, site, statsUrlOf, page);
    if HasContent(o.content) {
      ListingWithinSlice(AnchorsOf(site, o.content.value), slice.0, slice.1);
    }
  }

  /** Every page of the run holds no more titles than its slice. */
  lemma {:induction false} RunTitlesBound(job: Job, site: Site, statsUrlOf: string -> string)
    requires ValidRange(job.range)
    ensures var pages := RunPages(job, site, statsUrlOf); var n := Configs(job.mediaType).itemsPerPage;
            forall k :: 0 <= k < PageCount(job) ==>
              |pages[k].titles| <= GetPageSlice(job.range, StartPage(job) + k, n).1 - GetPageSlice(job.range, StartPage(job) + k, n).0
  {
    var pages := RunPages(job, site, statsUrlOf);
    forall k | 0 <= k < PageCount(job)
      ensures |pages[k].titles| <= GetPageSlice(job.range, StartPage(job) + k, Configs(job.mediaType).itemsPerPage).1
                                   - GetPageSlice(job.range, StartPage(job) + k, Configs(job.mediaType).itemsPerPage).0
    {
      PageTitlesBound(job, site, statsUrlOf, StartPage(job) + k);
    }
  }

  /** Pages each holding no more titles than their slice hold no more titles than the slices together. */
  lemma {:induction false} TitleCountBound(r: ScrapingRange, n: int, first: int, pages: seq<PageOutcome>, count: nat)
    requires count <= |pages|
    requires forall k :: 0 <= k < count ==>
               |pages[k].titles| <= GetPageSlice(r, first + k, n).1 - GetPageSlice(r, first + k, n).0
    ensures TitleCount(pages, count) <= SlicedItems(r, n, first, count)
  {
    if count > 0 {
      TitleCountBound(r, n, first, pages, count - 1);
      assert |pages[count - 1].titles|
             <= GetPageSlice(r, first + count - 1, n).1 - GetPageSlice(r, first + count - 1, n).0;
    }
  }

  /** A valid range yields at most `total_items` records. */
  lemma {:induction false} AtMostTotal(job: Job, site: Site, statsUrlOf: string -> string)
    requires ValidRange(job.range)
    ensures |ScrapeRun(job, site, statsUrlOf).rows| <= TotalItems(job.range)
  {
    var n := Configs(job.mediaType).itemsPerPage;
    PagesOrdered(job.range, n);
    PagesRows(job, StartPage(job), RunPages(job, site, statsUrlOf), PageCount(job));
    RunTitlesBound(job, site, statsUrlOf);
    TitleCountBound(job.range, n, StartPage(job), RunPages(job, site, statsUrlOf), PageCount(job));
    SlicesTotal(job.range, n);
  }

  /** The stats of a record override its base keys; the base keys are there when the stats lack them. */
  lemma {:induction false} StatsOverride(row: Row, key: string)
    ensures ItemData(row).Keys == {"name", "url", "stats_url", "rank"} + row.stats.Keys
    ensures key in row.stats ==> ItemData(row)[key] == row.stats[key]
    ensures key !in row.stats ==>
              && (key == "name" ==> ItemData(row)[key] == StrValue(row.name))
              && (key == "url" ==> ItemData(row)[key] == StrValue(row.url))
              && (key == "stats_url" ==> ItemData(row)[key] == StrValue(row.statsUrl))
              && (key == "rank" ==> ItemData(row)[key] == IntValue(row.rank))
  {
  }
}
