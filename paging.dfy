/**
 * `ScrapingRange` (src/myanimelist_scraper/scraper.py): a 1-based inclusive
 * item range mapped onto fixed-size listing pages.
 *
 * Python's `//` floors; it is written out as `FloorDiv`, by repeated
 * subtraction, for the positive page size used here.
 */
module Paging {

  /** A caller-supplied range; the source never checks it. */
  datatype ScrapingRange = ScrapingRange(start: int, end: int)

  function Max(a: int, b: int): int { if a >= b then a else b }
  function Min(a: int, b: int): int { if a <= b then a else b }

  /** Python's `a // n` for a positive `n`. */
  function FloorDiv(a: int, n: int): int
    requires n > 0
    decreases if a < 0 then n - a else a
  {
    if a < 0 then FloorDiv(a + n, n) - 1
    else if a < n then 0
    else FloorDiv(a - n, n) + 1
  }

  /** `a // n` is the `q` with `q * n <= a < q * n + n`. */
  lemma {:induction false} FloorDivBounds(a: int, n: int)
    requires n > 0
    ensures FloorDiv(a, n) * n <= a < FloorDiv(a, n) * n + n
    decreases if a < 0 then n - a else a
  {
    if a < 0 {
      FloorDivBounds(a + n, n);
      assert FloorDiv(a, n) * n == FloorDiv(a + n, n) * n - n;
    } else if a >= n {
      FloorDivBounds(a - n, n);
      assert FloorDiv(a, n) * n == FloorDiv(a - n, n) * n + n;
    }
  }

  /** `total_items`. */
  function TotalItems(r: ScrapingRange): int {
    r.end - r.start + 1
  }

  /** `get_pages`: the pages holding the first and the last item of the range. */
  function GetPages(r: ScrapingRange, itemsPerPage: int): (int, int)
    requires itemsPerPage > 0
  {
    (FloorDiv(r.start - 1, itemsPerPage) + 1, FloorDiv(r.end - 1, itemsPerPage) + 1)
  }

  /** `get_page_slice`: the 0-based half-open slice of `page` that lies in the range. */
  function GetPageSlice(r: ScrapingRange, page: int, itemsPerPage: int): (int, int) {
    var pageStart := (page - 1) * itemsPerPage + 1;
    (Max(0, r.start - pageStart), Min(itemsPerPage, r.end - pageStart + 1))
  }

  /** The ranges the callers are meant to pass. */
  predicate ValidRange(r: ScrapingRange) {
    1 <= r.start <= r.end
  }

  /** The page that holds absolute (1-based) item `k`. */
  function PageOf(k: int, itemsPerPage: int): int
    requires itemsPerPage > 0
  {
    FloorDiv(k - 1, itemsPerPage) + 1
  }

  lemma {:induction false} MulMono(a: int, b: int, n: int)
    requires a <= b && 0 <= n
    ensures a * n <= b * n
  {
    assert b * n - a * n == (b - a) * n;
  }

  /** Page `PageOf(k)` covers item numbers `(p - 1) * n + 1 .. p * n`, and only that page contains `k`. */
  lemma {:induction false} PageOfBounds(k: int, n: int)
    requires n > 0
    ensures (PageOf(k, n) - 1) * n < k <= PageOf(k, n) * n
  {
    var q := FloorDiv(k - 1, n);
    FloorDivBounds(k - 1, n);
    assert PageOf(k, n) * n == q * n + n;
  }

  lemma {:induction false} PageOfUnique(k: int, n: int, p: int)
    requires n > 0 && (p - 1) * n < k <= p * n
    ensures p == PageOf(k, n)
  {
    var q := PageOf(k, n);
    PageOfBounds(k, n);
    if p < q {
      MulMono(p, q - 1, n);
    } else if q < p {
      MulMono(q, p - 1, n);
    }
  }

  lemma {:induction false} PageOfMono(j: int, k: int, n: int)
    requires n > 0 && j <= k
    ensures PageOf(j, n) <= PageOf(k, n)
  {
    PageOfBounds(j, n);
    PageOfBounds(k, n);
    if PageOf(k, n) < PageOf(j, n) {
      MulMono(PageOf(k, n), PageOf(j, n) - 1, n);
    }
  }

  /** The first page comes no later than the last one, and both are real pages. */
  lemma {:induction false} PagesOrdered(r: ScrapingRange, n: int)
    requires ValidRange(r) && n > 0
    ensures 1 <= GetPages(r, n).0 <= GetPages(r, n).1
  {
    PageOfMono(1, r.start, n);
    PageOfMono(r.start, r.end, n);
  }

  /** Every page from the first to the last gets a non-empty slice inside the page. */
  lemma {:induction false} SliceWithinPage(r: ScrapingRange, n: int, page: int)
    requires ValidRange(r) && n > 0
    requires GetPages(r, n).0 <= page <= GetPages(r, n).1
    ensures 0 <= GetPageSlice(r, page, n).0 < GetPageSlice(r, page, n).1 <= n
  {
    var first, last := GetPages(r, n).0, GetPages(r, n).1;
    var below := (page - 1) * n;
    PageOfBounds(r.start, n);
    PageOfBounds(r.end, n);
    assert r.start <= first * n;
    MulMono(first, page, n);
    assert page * n == below + n;
    assert r.start - (below + 1) < n;
    assert (last - 1) * n < r.end;
    MulMono(page - 1, last - 1, n);
    assert below < r.end;
    assert GetPageSlice(r, page, n) == (Max(0, r.start - (below + 1)), Min(n, r.end - below));
  }

  /** Page `page`'s slice, at 0-based index `k - (page - 1) * n - 1`, holds absolute item `k`. */
  predicate Covers(r: ScrapingRange, n: int, page: int, k: int)
    requires n > 0
  {
    var slice := GetPageSlice(r, page, n);
    GetPages(r, n).0 <= page <= GetPages(r, n).1
    && slice.0 <= k - (page - 1) * n - 1 < slice.1
  }

  /** An item is covered by some page's slice exactly when it lies in the range. */
  lemma {:induction false} CoveredIffInRange(r: ScrapingRange, n: int, k: int)
    requires ValidRange(r) && n > 0
    ensures (exists page :: Covers(r, n, page, k)) <==> r.start <= k <= r.end
  {
    if r.start <= k <= r.end {
      var p := PageOf(k, n);
      PageOfMono(r.start, k, n);
      PageOfMono(k, r.end, n);
      PageOfBounds(k, n);
      var pageStart := (p - 1) * n + 1;
      assert p * n == (p - 1) * n + n;
      assert GetPageSlice(r, p, n) == (Max(0, r.start - pageStart), Min(n, r.end - pageStart + 1));
      assert 0 <= k - pageStart < n;
      assert Covers(r, n, p, k);
    }
    forall page | Covers(r, n, page, k) ensures r.start <= k <= r.end {
      var pageStart := (page - 1) * n + 1;
      assert GetPageSlice(r, page, n) == (Max(0, r.start - pageStart), Min(n, r.end - pageStart + 1));
    }
  }

  /** No item is covered by two different pages. */
  lemma {:induction false} CoveredOnce(r: ScrapingRange, n: int, k: int, p: int, q: int)
    requires n > 0 && Covers(r, n, p, k) && Covers(r, n, q, k)
    ensures p == q
  {
    assert (p - 1) * n + n == p * n;
    assert (q - 1) * n + n == q * n;
    PageOfUnique(k, n, p);
    PageOfUnique(k, n, q);
  }

  /** The number of items the slices of `count` pages from `page` on select. */
  function SlicedItems(r: ScrapingRange, n: int, page: int, count: int): int
    decreases count
  {
    if count <= 0 then 0
    else
      var slice := GetPageSlice(r, page + count - 1, n);
      SlicedItems(r, n, page, count - 1) + (slice.1 - slice.0)
  }

  lemma {:induction false} SlicedPrefix(r: ScrapingRange, n: int, count: int)
    requires ValidRange(r) && n > 0
    requires 1 <= count <= GetPages(r, n).1 - GetPages(r, n).0 + 1
    ensures SlicedItems(r, n, GetPages(r, n).0, count)
            == Min(r.end, (GetPages(r, n).0 + count - 1) * n) - r.start + 1
  {
    var sp := GetPages(r, n).0;
    var p := sp + count - 1;
    PageOfBounds(r.start, n);
    PageOfBounds(r.end, n);
    assert (p - 1) * n + n == p * n;
    if count > 1 {
      SlicedPrefix(r, n, count - 1);
      MulMono(sp, p - 1, n);
      MulMono(p - 1, GetPages(r, n).1 - 1, n);
    }
  }

  /** The slices of pages `start_page .. end_page` select `total_items` items in all. */
  lemma {:induction false} SlicesTotal(r: ScrapingRange, n: int)
    requires ValidRange(r) && n > 0
    ensures SlicedItems(r, n, GetPages(r, n).0, GetPages(r, n).1 - GetPages(r, n).0 + 1)
            == TotalItems(r)
  {
    var sp, ep := GetPages(r, n).0, GetPages(r, n).1;
    var count := ep - sp + 1;
    PagesOrdered(r, n);
    assert r.end <= ep * n by { PageOfBounds(r.end, n); }
    assert SlicedItems(r, n, sp, count) == Min(r.end, ep * n) - r.start + 1 by {
      SlicedPrefix(r, n, count);
      assert sp + count - 1 == ep;
    }
  }

  /** The worked examples, with 50 items per page. */
  lemma {:induction false} Examples()
    ensures GetPages(ScrapingRange(1, 50), 50) == (1, 1)
    ensures GetPageSlice(ScrapingRange(1, 50), 1, 50) == (0, 50)
    ensures GetPages(ScrapingRange(51, 60), 50) == (2, 2)
    ensures GetPageSlice(ScrapingRange(51, 60), 2, 50) == (0, 10)
    ensures GetPages(ScrapingRange(45, 55), 50) == (1, 2)
    ensures GetPageSlice(ScrapingRange(45, 55), 1, 50) == (44, 50)
    ensures GetPageSlice(ScrapingRange(45, 55), 2, 50) == (0, 5)
  {
  }
}
