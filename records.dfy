/**
 * Which records `scrape_range` returns and which stats pages it fetches
 * (src/myanimelist_scraper/scraper.py): the records are, in order, the titles
 * in range of the fetched listing pages whose stats are not empty. Each record
 * carries that title's own name, URL, stats URL and stats. Every title in
 * range has its stats page fetched once, in document order.
 */
module Records {
  import opened Wrappers
  import opened Paging
  import opened Config
  import opened Fetching
  import opened Extraction
  import opened Scraping

  /** The titles whose stats are not empty: those `scrape_range` keeps. */
  function Kept(ts: seq<Title>): (ks: seq<Title>)
    ensures |ks| <= |ts|
  {
    if ts == [] then []
    else Kept(ts[..|ts| - 1]) + (if ts[|ts| - 1].outcome.stats != map[] then [ts[|ts| - 1]] else [])
  }

  /** The record of title `t` at rank `rank`. */
  function RecordOf(t: Title, rank: int): Row {
    Row(t.entry.name, t.entry.url, t.outcome.url, rank, t.outcome.stats)
  }

  /** `rows` are the records of `ks`, in order, ranked on from `rank`. */
  predicate RecordsFor(rows: seq<Row>, ks: seq<Title>, rank: int) {
    && |rows| == |ks|
    && forall k :: 0 <= k < |rows| ==> rows[k] == RecordOf(ks[k], rank + k)
  }

  /** `urls` are the stats URLs of `ts`, in order. */
  predicate FetchesFor(urls: seq<string>, ts: seq<Title>) {
    && |urls| == |ts|
    && forall k :: 0 <= k < |urls| ==> urls[k] == ts[k].outcome.url
  }

  /** The stats pages fetched, in order. */
  function StatsFetches(effects: seq<Effect>): seq<string> {
    if effects == [] then []
    else
      var last := effects[|effects| - 1];
      StatsFetches(effects[..|effects| - 1]) + (if last.FetchedStats? then [last.url] else [])
  }

  /** The titles of the fetched pages among the first `count`, in order. */
  function TitlesUpTo(pages: seq<PageOutcome>, count: nat): seq<Title>
    requires count <= |pages|
  {
    if count == 0 then []
    else TitlesUpTo(pages, count - 1) + (if HasContent(pages[count - 1].content) then pages[count - 1].titles else [])
  }

  /** The titles in range of every listing page the run fetched, in order. */
  function RunTitles(job: Job, site: Site, statsUrlOf: string -> string): seq<Title> {
    TitlesUpTo(RunPages(job, site, statsUrlOf), PageCount(job))
  }

  /** Every title's stats were read from the stats URL of its own page URL. */
  predicate Linked(statsUrlOf: string -> string, ts: seq<Title>) {
    forall k :: 0 <= k < |ts| ==> ts[k].outcome.url == statsUrlOf(ts[k].entry.url)
  }

  // ---- Sequence facts ----

  lemma {:induction false} KeptAppend(a: seq<Title>, b: seq<Title>)
    ensures Kept(a + b) == Kept(a) + Kept(b)
    decreases |b|
  {
    if b == [] {
      assert a + b == a;
    } else {
      var b' := b[..|b| - 1];
      assert (a + b)[..|a + b| - 1] == a + b';
      KeptAppend(a, b');
    }
  }

  /** The kept titles all have stats, and they keep the link to their stats URL. */
  lemma {:induction false} KeptLinked(statsUrlOf: string -> string, ts: seq<Title>)
    requires Linked(statsUrlOf, ts)
    ensures Linked(statsUrlOf, Kept(ts))
    ensures forall k :: 0 <= k < |Kept(ts)| ==> Kept(ts)[k].outcome.stats != map[]
    decreases |ts|
  {
    if ts != [] {
      var init := ts[..|ts| - 1];
      assert Linked(statsUrlOf, init) by {
        forall k | 0 <= k < |init| ensures init[k].outcome.url == statsUrlOf(init[k].entry.url) {
          assert init[k] == ts[k];
        }
      }
      KeptLinked(statsUrlOf, init);
    }
  }

  /** One more title adds its stats URL. */
  lemma {:induction false} FetchesForSnoc(urls: seq<string>, ts: seq<Title>, t: Title)
    requires FetchesFor(urls, ts)
    ensures FetchesFor(urls + [t.outcome.url], ts + [t])
  {
    var urls' := urls + [t.outcome.url];
    forall k | 0 <= k < |urls'| ensures urls'[k] == (ts + [t])[k].outcome.url {
      if k < |urls| {
        assert urls'[k] == urls[k] && (ts + [t])[k] == ts[k];
      }
    }
  }

  lemma {:induction false} StatsFetchesAppend(a: seq<Effect>, b: seq<Effect>)
    ensures StatsFetches(a + b) == StatsFetches(a) + StatsFetches(b)
    decreases |b|
  {
    if b == [] {
      assert a + b == a;
    } else {
      var b' := b[..|b| - 1];
      assert (a + b)[..|a + b| - 1] == a + b';
      StatsFetchesAppend(a, b');
    }
  }

  /** The stats fetch among one effect. */
  lemma {:induction false} StatsFetchesOne(x: Effect)
    ensures StatsFetches([x]) == (if x.FetchedStats? then [x.url] else [])
  {
    assert [x][..0] == [];
  }

  /** The stats fetches among two or three effects. */
  lemma {:induction false} StatsFetchesChunk(x: Effect, y: Effect, z: Effect)
    ensures StatsFetches([x, y]) == (if x.FetchedStats? then [x.url] else []) + (if y.FetchedStats? then [y.url] else [])
    ensures StatsFetches([x, y, z])
            == (if x.FetchedStats? then [x.url] else []) + (if y.FetchedStats? then [y.url] else [])
               + (if z.FetchedStats? then [z.url] else [])
  {
    StatsFetchesOne(x);
    assert [x, y][..1] == [x];
    assert [x, y, z][..2] == [x, y];
  }

  // ---- One title ----

  /** A title adds its own record exactly when its stats are not empty, with the next rank. */
  lemma {:induction false} ItemStepRecords(job: Job, t: Title, run: Run)
    ensures ItemStep(job, t, run).rows
            == run.rows + (if t.outcome.stats != map[] then [RecordOf(t, job.range.start + |run.rows|)] else [])
  {
  }

  /** A title adds one fetch of its stats page, whatever the page gave. */
  lemma {:induction false} ItemStepFetches(job: Job, t: Title, run: Run)
    ensures StatsFetches(ItemStep(job, t, run).effects) == StatsFetches(run.effects) + [t.outcome.url]
  {
    var o := t.outcome;
    var fetched := FetchedStats(o.url, o.events);
    var pause := Pause(Configs(job.mediaType).rateLimit);
    StatsFetchesChunk(fetched, Progress(t.current, TotalItems(job.range)), pause);
    if o.stats != map[] && job.hasCallback {
      StatsFetchesAppend(run.effects, [fetched, Progress(t.current, TotalItems(job.range)), pause]);
    } else {
      StatsFetchesAppend(run.effects, [fetched, pause]);
    }
  }

  // ---- The inner loop ----

  lemma {:induction false} KeptSnoc(ts: seq<Title>, t: Title)
    ensures Kept(ts + [t]) == Kept(ts) + (if t.outcome.stats != map[] then [t] else [])
  {
    assert (ts + [t])[..|ts|] == ts;
  }

  /** Kept titles after a prefix, followed by one more title. */
  lemma {:induction false} KeptPush(ks: seq<Title>, init: seq<Title>, t: Title)
    ensures ks + Kept(init + [t]) == (ks + Kept(init)) + (if t.outcome.stats != map[] then [t] else [])
  {
    KeptSnoc(init, t);
  }

  /** One more kept title adds its record at the next rank. */
  lemma {:induction false} RecordsForSnoc(rows: seq<Row>, ks: seq<Title>, t: Title, rank: int)
    requires RecordsFor(rows, ks, rank)
    ensures RecordsFor(rows + [RecordOf(t, rank + |rows|)], ks + [t], rank)
  {
    var rows' := rows + [RecordOf(t, rank + |rows|)];
    forall k | 0 <= k < |rows'| ensures rows'[k] == RecordOf((ks + [t])[k], rank + k) {
      if k < |rows| {
        assert rows'[k] == rows[k] && (ks + [t])[k] == ks[k];
      }
    }
  }

  /** Pass `j` of the inner loop adds the record of title `j - 1` when it is kept. */
  lemma {:induction false} ItemsUpToStep(job: Job, ts: seq<Title>, j: nat, start: Run)
    requires 0 < j <= |ts|
    ensures var before := ItemsUpTo(job, ts, j - 1, start).rows;
            ItemsUpTo(job, ts, j, start).rows
            == before + (if ts[j - 1].outcome.stats != map[] then [RecordOf(ts[j - 1], job.range.start + |before|)] else [])
  {
    ItemStepRecords(job, ts[j - 1], ItemsUpTo(job, ts, j - 1, start));
  }

  /** After `j` titles, the records are those of the titles kept before and among them, ranked on. */
  lemma {:induction false} ItemsUpToRecords(job: Job, ts: seq<Title>, j: nat, start: Run, ks: seq<Title>)
    requires j <= |ts|
    requires RecordsFor(start.rows, ks, job.range.start)
    ensures RecordsFor(ItemsUpTo(job, ts, j, start).rows, ks + Kept(ts[..j]), job.range.start)
  {
    if j == 0 {
      assert ts[..0] == [];
      assert ks + Kept([]) == ks;
    } else {
      var t := ts[j - 1];
      var init := ts[..j - 1];
      assert ts[..j] == init + [t];
      var before := ItemsUpTo(job, ts, j - 1, start).rows;
      ItemsUpToRecords(job, ts, j - 1, start, ks);
      ItemsUpToStep(job, ts, j, start);
      KeptPush(ks, init, t);
      if t.outcome.stats != map[] {
        RecordsForSnoc(before, ks + Kept(init), t, job.range.start);
      } else {
        assert (ks + Kept(init)) + [] == ks + Kept(init);
      }
    }
  }

  /** Pass `j` of the inner loop fetches the stats page of title `j - 1`. */
  lemma {:induction false} ItemsUpToFetchStep(job: Job, ts: seq<Title>, j: nat, start: Run)
    requires 0 < j <= |ts|
    ensures StatsFetches(ItemsUpTo(job, ts, j, start).effects)
            == StatsFetches(ItemsUpTo(job, ts, j - 1, start).effects) + [ts[j - 1].outcome.url]
  {
    ItemStepFetches(job, ts[j - 1], ItemsUpTo(job, ts, j - 1, start));
  }

  /** After `j` titles, the stats pages of the titles before and of all of them have been fetched, in order. */
  lemma {:induction false} ItemsUpToFetches(job: Job, ts: seq<Title>, j: nat, start: Run, done: seq<Title>)
    requires j <= |ts|
    requires FetchesFor(StatsFetches(start.effects), done)
    ensures FetchesFor(StatsFetches(ItemsUpTo(job, ts, j, start).effects), done + ts[..j])
  {
    if j == 0 {
      assert done + ts[..0] == done;
    } else {
      var t := ts[j - 1];
      var init := ts[..j - 1];
      assert ts[..j] == init + [t];
      assert done + ts[..j] == (done + init) + [t];
      var before := ItemsUpTo(job, ts, j - 1, start);
      ItemsUpToFetches(job, ts, j - 1, start, done);
      ItemsUpToFetchStep(job, ts, j, start);
      FetchesForSnoc(StatsFetches(before.effects), done + init, t);
    }
  }

  // ---- One page ----

  /** The titles a page processes: none unless its fetch gave content. */
  function Processed(o: PageOutcome): seq<Title> {
    if HasContent(o.content) then o.titles else []
  }

  /** A page adds the records of its kept titles, ranked on; a page without content adds none. */
  lemma {:induction false} PageStepRecords(job: Job, page: int, o: PageOutcome, run: Run, ks: seq<Title>)
    requires RecordsFor(run.rows, ks, job.range.start)
    ensures RecordsFor(PageStep(job, page, o, run).rows, ks + Kept(Processed(o)), job.range.start)
  {
    var fetched := FetchedPage(page, o.url, o.events);
    if HasContent(o.content) {
      var begun := if job.saveHtml then [fetched, Saved(o.url)] else [fetched];
      var begin := Run(run.rows, run.effects + begun);
      assert Processed(o) == o.titles;
      assert PageStep(job, page, o, run) == ItemsUpTo(job, o.titles, |o.titles|, begin);
      ItemsUpToRecords(job, o.titles, |o.titles|, begin, ks);
      assert o.titles[..|o.titles|] == o.titles;
    } else {
      assert PageStep(job, page, o, run).rows == run.rows;
      assert Processed(o) == [];
      assert ks + Kept([]) == ks;
    }
  }

  /** A page fetches the stats pages of its titles, in order, and no other stats page. */
  lemma {:induction false} PageStepFetches(job: Job, page: int, o: PageOutcome, run: Run, done: seq<Title>)
    requires FetchesFor(StatsFetches(run.effects), done)
    ensures FetchesFor(StatsFetches(PageStep(job, page, o, run).effects), done + Processed(o))
  {
    var fetched := FetchedPage(page, o.url, o.events);
    var begun := if job.saveHtml then [fetched, Saved(o.url)] else [fetched];
    StatsFetchesChunk(fetched, Saved(o.url), Saved(o.url));
    assert StatsFetches([fetched]) == [] by {
      assert [fetched][..0] == [];
    }
    StatsFetchesAppend(run.effects, begun);
    if HasContent(o.content) {
      var begin := Run(run.rows, run.effects + begun);
      assert PageStep(job, page, o, run) == ItemsUpTo(job, o.titles, |o.titles|, begin);
      ItemsUpToFetches(job, o.titles, |o.titles|, begin, done);
      assert o.titles[..|o.titles|] == o.titles;
    } else {
      StatsFetchesAppend(run.effects, [fetched]);
      assert done + Processed(o) == done;
    }
  }

  // ---- The outer loop ----

  lemma {:induction false} TitlesUpToNext(pages: seq<PageOutcome>, count: nat)
    requires 0 < count <= |pages|
    ensures TitlesUpTo(pages, count) == TitlesUpTo(pages, count - 1) + Processed(pages[count - 1])
  {
  }

  /** The kept titles of `count` pages are those of the first `count - 1`, then those of page `count`. */
  lemma {:induction false} KeptUpToNext(pages: seq<PageOutcome>, count: nat)
    requires 0 < count <= |pages|
    ensures Kept(TitlesUpTo(pages, count)) == Kept(TitlesUpTo(pages, count - 1)) + Kept(Processed(pages[count - 1]))
  {
    TitlesUpToNext(pages, count);
    KeptAppend(TitlesUpTo(pages, count - 1), Processed(pages[count - 1]));
  }

  /** After `count` pages, the records are those of the kept titles of their fetched pages, ranked from `start`. */
  lemma {:induction false} PagesUpToRecords(job: Job, first: int, pages: seq<PageOutcome>, count: nat)
    requires count <= |pages|
    ensures RecordsFor(PagesUpTo(job, first, pages, count).rows, Kept(TitlesUpTo(pages, count)), job.range.start)
  {
    if count > 0 {
      var before := PagesUpTo(job, first, pages, count - 1);
      PagesUpToRecords(job, first, pages, count - 1);
      PagesUpToNext(job, first, pages, count - 1, before);
      PageStepRecords(job, first + count - 1, pages[count - 1], before, Kept(TitlesUpTo(pages, count - 1)));
      KeptUpToNext(pages, count);
    } else {
      assert Kept(TitlesUpTo(pages, 0)) == [];
    }
  }

  /** After `count` pages, the stats pages of all titles of their fetched pages have been fetched, in order. */
  lemma {:induction false} PagesUpToFetches(job: Job, first: int, pages: seq<PageOutcome>, count: nat)
    requires count <= |pages|
    ensures FetchesFor(StatsFetches(PagesUpTo(job, first, pages, count).effects), TitlesUpTo(pages, count))
  {
    if count > 0 {
      var before := PagesUpTo(job, first, pages, count - 1);
      PagesUpToFetches(job, first, pages, count - 1);
      PagesUpToNext(job, first, pages, count - 1, before);
      PageStepFetches(job, first + count - 1, pages[count - 1], before, TitlesUpTo(pages, count - 1));
      TitlesUpToNext(pages, count);
    } else {
      assert StatsFetches([]) == [];
    }
  }

  // ---- The pages of a run ----

  /** A fetched page's titles are its entries in range, in document order, each with its own stats. */
  lemma {:induction false} PageTitles(job: Job, site: Site, statsUrlOf: string -> string, page: int)
    ensures var o := PageOutcomeOf(job, site, statsUrlOf, page);
            var entries := if HasContent(o.content) then PageEntries(job, site, page, o.content.value) else [];
            && |o.titles| == |entries|
            && forall k :: 0 <= k < |o.titles| ==>
                 && o.titles[k].entry == entries[k]
                 && o.titles[k].outcome == StatsOutcomeAt(site, Configs(job.mediaType).rateLimit, statsUrlOf(entries[k].url))
  {
  }

  lemma {:induction false} TitlesUpToLinked(statsUrlOf: string -> string, pages: seq<PageOutcome>, count: nat)
    requires count <= |pages|
    requires forall p :: 0 <= p < count ==> Linked(statsUrlOf, pages[p].titles)
    ensures Linked(statsUrlOf, TitlesUpTo(pages, count))
  {
    if count > 0 {
      TitlesUpToLinked(statsUrlOf, pages, count - 1);
      var a := TitlesUpTo(pages, count - 1);
      var b := Processed(pages[count - 1]);
      assert Linked(statsUrlOf, b);
      forall k | 0 <= k < |a + b|
        ensures (a + b)[k].outcome.url == statsUrlOf((a + b)[k].entry.url)
      {
        if k < |a| {
          assert (a + b)[k] == a[k];
        } else {
          assert (a + b)[k] == b[k - |a|];
        }
      }
    }
  }

  /** Every title of a run was read from the stats URL of its own page URL. */
  lemma {:induction false} RunTitlesLinked(job: Job, site: Site, statsUrlOf: string -> string)
    ensures Linked(statsUrlOf, RunTitles(job, site, statsUrlOf))
  {
    var pages := RunPages(job, site, statsUrlOf);
    forall p | 0 <= p < PageCount(job) ensures Linked(statsUrlOf, pages[p].titles) {
      PageTitles(job, site, statsUrlOf, StartPage(job) + p);
    }
    TitlesUpToLinked(statsUrlOf, pages, PageCount(job));
  }

  // ---- The whole run ----

  /**
   * The records of `scrape_range` are, in order, the titles in range of the
   * fetched pages whose stats are not empty, each with its own name, URL,
   * stats URL and stats, and rank `start + k`.
   */
  lemma {:induction false} RunRecords(job: Job, site: Site, statsUrlOf: string -> string)
    ensures var rows := ScrapeRun(job, site, statsUrlOf).rows;
            var kept := Kept(RunTitles(job, site, statsUrlOf));
            && |rows| == |kept|
            && forall k :: 0 <= k < |rows| ==>
                 && kept[k].outcome.stats != map[]
                 && rows[k] == Row(kept[k].entry.name, kept[k].entry.url, statsUrlOf(kept[k].entry.url),
                                   job.range.start + k, kept[k].outcome.stats)
  {
    PagesUpToRecords(job, StartPage(job), RunPages(job, site, statsUrlOf), PageCount(job));
    RunTitlesLinked(job, site, statsUrlOf);
    KeptLinked(statsUrlOf, RunTitles(job, site, statsUrlOf));
  }

  /** Every title in range of a fetched page has its stats page fetched once, in document order, and no other. */
  lemma {:induction false} RunStatsFetches(job: Job, site: Site, statsUrlOf: string -> string)
    ensures var ts := RunTitles(job, site, statsUrlOf);
            var fetches := StatsFetches(ScrapeRun(job, site, statsUrlOf).effects);
            && |fetches| == |ts|
            && forall k :: 0 <= k < |ts| ==> fetches[k] == statsUrlOf(ts[k].entry.url)
  {
    PagesUpToFetches(job, StartPage(job), RunPages(job, site, statsUrlOf), PageCount(job));
    RunTitlesLinked(job, site, statsUrlOf);
  }
}
