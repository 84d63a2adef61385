# myanimelist_scraper, modelled in Dafny

This project models the core of `myanimelist_scraper`, a scraper for the
ranked top-manga and top-anime listings of MyAnimeList, and proves
properties of that model. The modelled parts are:

- `ScrapingRange`: maps a 1-based inclusive item range onto pages of 50
  titles, giving each page a 0-based half-open slice.
- `MediaScraper.get_page_url`: builds the listing URL `base?limit=<offset>`.
- The file name that `MediaScraper.save_file` chooses for a page.
- `MediaScraper.fetch_page`: a retry loop with a rate-limit pause before each
  attempt and an exponential back-off after each failed one.
- `MediaScraper.extract_media_liist`: keeps the title anchors of a listing
  page whose index is in the slice.
- `MediaScraper.extract_stats`: builds the key/value dict of a stats page,
  with `int` coercion of three numeric keys.
- `MediaScraper.scrape_range`: the nested page and title loops that build
  the list of records, with ranks and progress callbacks.
- `name_formatter` (utils.py): a snake-case name with a date suffix.
- `Media.stats_url` (models.py): `urljoin(url, "stats")`, as CPython
  computes it. This is CPython's version of reference resolution in section
  5.2 of RFC 3986.

Each file is one module:

| file | module | models |
|---|---|---|
| `wrappers.dfy` | `Wrappers` | `Option` |
| `config.dfy` | `Config` | `MediaType`, `MediaConfig`, `CONFIGS` |
| `text.dfy` | `Text` | `strip`, `rstrip`, `lower`, `in`, `split`, `join`, `replace`, `rfind` |
| `decimal.dfy` | `Decimal` | `str(int)`, and `int(str)` for a sign and digits |
| `paging.dfy` | `Paging` | `ScrapingRange` |
| `page_files.dfy` | `PageFiles` | `get_page_url`, the file name of `save_file`, and the query and parameters of a URL as `urlparse` and `parse_qs` read them |
| `fetching.dfy` | `Fetching` | `fetch_page` |
| `extraction.dfy` | `Extraction` | `extract_media_liist`, `extract_stats` |
| `uri.dfy` | `Uri` | `urlsplit`, `urlunsplit`, and `urljoin(base, "stats")` |
| `models.dfy` | `Models` | `Media.stats_url`, and the stats URL of an item page |
| `scraping.dfy` | `Scraping` | `scrape_range` |
| `range_facts.dfy` | `RangeFacts` | the properties of a whole `scrape_range` run |
| `records.dfy` | `Records` | which records a `scrape_range` run returns, and which stats pages it fetches |
| `utils.dfy` | `Utils` | `name_formatter` |

The source's loops are modelled as Dafny methods with `while` loops:

- `Fetching.FetchPage`
- `Extraction.ExtractMediaList`
- `Extraction.CollectStats` (the block loop of `extract_stats`)
- `Scraping.ScrapeItems` and `Scraping.ScrapePages` (the two loops of `scrape_range`)

Each is proved equal to a function. The properties are then proved
as lemmas about those functions. The scraper's fields never change after
`__init__`, so the scraper is a value (`Scraping.Job`), not a class.

The outside world is modelled as data:

- **The network.** A table gives, for each URL, what every attempt of
  `session.get` plus `raise_for_status` yields. A site answers a given URL the
  same way every time.
- **The HTML parser.** Each listing page is given as its matched title
  anchors in document order. Each stats page is given as its
  `spaceit_pad` blocks in document order.
- **Sleeps, fetches, saves and progress callbacks.** These are recorded, in
  order, as a list of effects.

`Scraping.ScrapeRange` returns the list of dicts and these effects. It is
proved equal to `Scraping.ScrapeRun`, a function computed from the tables
alone. `RangeFacts` states what a run promises. `Records` states which
records a run returns and which stats pages it fetches, in order.

### Call sites that do not match their definitions

`scrape_range` calls three things the code does not define as called. Each is
modelled as the call that is evidently meant:

- `self.save_page(content, url)` (scraper.py:213) is modelled as `save_file`.
- `self.extract_media_list(...)` (scraper.py:220) is modelled as
  `extract_media_liist`, the spelling of the definition.
- `self.extract_stats(stats_url, save_html)` (scraper.py:230) is modelled as
  the one-argument `extract_stats(stats_url)`. The stats page is fetched
  and read, but never saved.

### Where the documented behaviour and the code differ

The model follows the code:

- **Empty response bodies.** `fetch_page` returns the body of the first
  attempt that raises nothing, even when that body is empty. It does not
  retry an empty body (scraper.py:104-105). Only its callers treat empty
  content as a failure (scraper.py:129, 208).
- **Rank numbering.** The rank of a record is `start + len(all_items)`
  (scraper.py:236). Ranks are therefore compact: a skipped page or title
  leaves no gap. They are not the absolute position in the range.
- **Progress figures.** The callback receives `current_item` and
  `total_items` (scraper.py:225, 241). `current_item` is
  `(page - start_page) * items_per_page + i + 1`. It is a position within the
  pages, `i` counts skipped titles, and it is not the number of items done so
  far. For the range (45, 55), the titles of page 2 report 51 to 55 of a total
  of 11.
- **Invalid ranges.** No error is raised for `end < start`. `ScrapingRange`
  accepts such a range, `total_items` is then zero or negative, and
  `scrape_range` runs over whatever pages `get_pages` gives (scraper.py:27-45,
  201-204).
- **Persistence.** No persistence or merge step is modelled. The code shown
  does not define one.

## Model

| member | source | states |
|---|---|---|
| `Config.Configs` | src/myanimelist_scraper/scraper.py:60-63 | Both media types use the dataclass defaults: 50 items per page and a rate limit of 1. |
| `Paging.FloorDivBounds` | src/myanimelist_scraper/scraper.py:34-35 | `FloorDiv(a, n)` is Python's floor quotient `a // n`, including for negative `a`: `q * n <= a < q * n + n`. |
| `Paging.PageOfBounds` | src/myanimelist_scraper/scraper.py:34-35 | The page that `get_pages` computes for item `k` holds items `(p - 1) * n + 1 .. p * n`, and `k` is among them. |
| `Paging.PageOfUnique` | src/myanimelist_scraper/scraper.py:34-35 | A page holding item `k` is the page `get_pages` computes for `k`. |
| `Paging.PageOfMono` | src/myanimelist_scraper/scraper.py:34-35 | A later item never lies on an earlier page. |
| `Paging.PagesOrdered` | src/myanimelist_scraper/scraper.py:32-36 | For `1 <= start <= end`: `1 <= start_page <= end_page`. |
| `Paging.SliceWithinPage` | src/myanimelist_scraper/scraper.py:38-45 | Every page from `start_page` to `end_page` gets a slice with `0 <= start_idx < end_idx <= items_per_page`. |
| `Paging.CoveredIffInRange` | src/myanimelist_scraper/scraper.py:38-45 | An absolute item `(page - 1) * n + idx + 1` lies in some page's slice exactly when it lies in `start..end` (both directions). |
| `Paging.CoveredOnce` | src/myanimelist_scraper/scraper.py:38-45 | No item lies in the slices of two different pages. |
| `Paging.SlicedPrefix` | src/myanimelist_scraper/scraper.py:38-45 | The slices of the first `count` pages select the items from `start` up to the end of the last of those pages, capped at `end`. |
| `Paging.SlicesTotal` | src/myanimelist_scraper/scraper.py:27-45 | Together, the slices of pages `start_page .. end_page` select `total_items` items. |
| `Paging.Examples` | src/myanimelist_scraper/scraper.py:32-45 | With 50 items per page: (1,50) is page 1 with slice (0,50); (51,60) is page 2 with slice (0,10); (45,55) is pages 1–2 with slices (44,50) and (0,5). |
| `Decimal.NatToString` | src/myanimelist_scraper/scraper.py:83 | The decimal text of a natural number is never empty. |
| `Decimal.NatToStringDigits` | src/myanimelist_scraper/scraper.py:83 | The decimal text of a natural number is all digits, with no leading zero unless it is `0`. |
| `Decimal.IntToString` | src/myanimelist_scraper/scraper.py:83 | `str(i)` is never empty. |
| `Decimal.IntToStringShape` | src/myanimelist_scraper/scraper.py:83 | `str(i)` is digits, except for a leading `-`. |
| `Decimal.DigitsOfNat` | src/myanimelist_scraper/scraper.py:153 | Reading the digits of `str(n)` back gives `n`. |
| `Decimal.ParseIntShape` | src/myanimelist_scraper/scraper.py:153 | Every text that `int` accepts is non-empty, and is digits after its first character. |
| `Decimal.ParseIntToString` | src/myanimelist_scraper/scraper.py:153 | `int(str(i)) == i` for every integer. |
| `Decimal.IntToStringInjective` | src/myanimelist_scraper/scraper.py:83 | Different offsets have different decimal texts, so different pages get different `limit` values. |
| `Text.TrimStartSpec` | src/myanimelist_scraper/scraper.py:140 | `lstrip` removes a prefix of dropped characters, and what remains does not start with one. |
| `Text.TrimEndSpec` | src/myanimelist_scraper/scraper.py:140 | `rstrip(":")` removes a suffix of dropped characters, and what remains does not end with one. |
| `Text.TrimSpec` | src/myanimelist_scraper/scraper.py:140 | Stripping both ends keeps a contiguous piece of the input. Everything cut away is a dropped character, and the piece neither starts nor ends with one. |
| `Text.StripSpec` | src/myanimelist_scraper/scraper.py:177 | `str.strip()` keeps a contiguous piece. Only whitespace is cut away, and none is left at either end. |
| `Text.Lower` | src/myanimelist_scraper/scraper.py:140 | `lower()` keeps the length. |
| `Text.LowerAt` | src/myanimelist_scraper/scraper.py:140 | `lower()` works character by character. |
| `Text.LowerIdempotent` | src/myanimelist_scraper/utils.py:8 | Lowercasing twice equals lowercasing once, and leaves no ASCII capital. |
| `Text.ContainsSuffix` | src/myanimelist_scraper/scraper.py:117 | `"stats" in url` holds for a URL that ends in `stats`. |
| `Text.IndexOf` | src/myanimelist_scraper/scraper.py:118 | The first occurrence: the character is at that index and nowhere before it. |
| `Text.IndexOfPrefix` | src/myanimelist_scraper/scraper.py:118 | Appending text does not move the first occurrence of a character that is already present. |
| `Text.IndexOfAfter` | src/myanimelist_scraper/scraper.py:118 | A prefix without the character shifts its first occurrence by the prefix's length. |
| `Text.Split` | src/myanimelist_scraper/scraper.py:118 | `split(sep)` gives at least one piece, and no piece holds `sep`. |
| `Text.SplitAtSep` | src/myanimelist_scraper/scraper.py:118 | A URL holding a `/` splits into at least two pieces, so `split("/")[-2]` exists. |
| `Text.SplitJoin` | src/myanimelist_scraper/scraper.py:118 | Joining the pieces of `split(sep)` with `sep` gives the string back. |
| `Text.SplitSnoc` | src/myanimelist_scraper/scraper.py:118 | Splitting `a + sep + b`, where `b` has no `sep`, gives the pieces of `a` followed by `b`. |
| `Text.LastIndexOf` | src/myanimelist_scraper/models.py:18 | `rfind`: the character is at that index and nowhere after it. |
| `Text.LastIndexOfSnoc` | src/myanimelist_scraper/models.py:18 | The last `/` of `a/b` is the one in front of `b` when `b` holds no `/`. |
| `Text.JoinSnoc` | src/myanimelist_scraper/models.py:18 | Joining one more piece appends the separator and that piece. |
| `Text.SplitFree` | src/myanimelist_scraper/models.py:18 | A character absent from a string is absent from every piece of its split. |
| `Text.JoinFree` | src/myanimelist_scraper/models.py:18 | A character that no piece holds, and that is not the separator, is absent from the join. |
| `Text.Remove` | src/myanimelist_scraper/scraper.py:153 | `replace(",", "")` leaves no comma, never lengthens the text, and changes nothing in a comma-free text. |
| `Text.RemoveChar` | src/myanimelist_scraper/scraper.py:153 | A one-character text becomes empty if it is a comma and is kept otherwise. |
| `Text.RemoveAppend` | src/myanimelist_scraper/scraper.py:153 | Removing commas from `a + b` gives the removal from `a` followed by the removal from `b`. With `Text.RemoveChar`, this means every other character survives, in order. |
| `Text.RemoveSeparator` | src/myanimelist_scraper/scraper.py:153 | Removing the comma between two comma-free texts joins them: `"1" + "," + "234"` becomes `"1234"`. |
| `Utils.NameFormatter` | src/myanimelist_scraper/utils.py:16-17 | The name ends in `_` followed by the date. |
| `Utils.CollapseChars` | src/myanimelist_scraper/utils.py:11 | The `re.sub` writes only `a-z`, `0-9` and `_`. |
| `Utils.CollapseNoDouble` | src/myanimelist_scraper/utils.py:11 | Each run of other characters becomes one `_`: the result never has two `_` in a row. |
| `Utils.CollapseWordChars` | src/myanimelist_scraper/utils.py:11 | The `re.sub` keeps every `[a-z0-9]` character, in order. |
| `Utils.SnakeSlice` | src/myanimelist_scraper/utils.py:11 | `strip("_")` keeps a contiguous piece of the substituted text, and only underscores are cut away. |
| `Utils.SnakeShape` | src/myanimelist_scraper/utils.py:11 | The part before the date has only `a-z`, `0-9` and `_`, and never two `_` in a row. It neither starts nor ends with `_`. |
| `Utils.SnakeWordChars` | src/myanimelist_scraper/utils.py:8-11 | The ASCII letters and digits of the input survive in the snake part, in their original order. |
| `Utils.EmptySnake` | src/myanimelist_scraper/utils.py:11 | A text with no `[a-z0-9]` character gives an empty snake part. |
| `Utils.NoWordCharsName` | src/myanimelist_scraper/utils.py:5-17 | An input with no ASCII letter or digit is named `"_" + date`. |
| `Utils.CaseInsensitive` | src/myanimelist_scraper/utils.py:8 | An input and its lowercase form get the same name. |
| `Utils.SameLowerSameName` | src/myanimelist_scraper/utils.py:8 | Two inputs of the same length whose characters agree after lowercasing get the same name. |
| `Fetching.FetchPage` | src/myanimelist_scraper/scraper.py:85-106 | The attempt loop returns the result and the trace of pauses and requests that `FetchFrom` defines. |
| `Fetching.FetchOutcome` | src/myanimelist_scraper/scraper.py:92-106 | From attempt `from` on, the result is `None` exactly when every remaining attempt fails. Otherwise it is the body of the first attempt that succeeds. |
| `Fetching.FetchPageOutcome` | src/myanimelist_scraper/scraper.py:92-106 | `fetch_page` returns `None` exactly when all `retries` attempts fail. Otherwise it returns the body of the first successful attempt. |
| `Fetching.AllAttemptsFail` | src/myanimelist_scraper/scraper.py:92-102 | When every attempt fails, each attempt is a pause of `rate_limit`, a request, and a back-off of `2**attempt`, the last attempt included. The result is `None`. |
| `Fetching.StopsAtFirstSuccess` | src/myanimelist_scraper/scraper.py:104-105 | The first successful body is returned at once. The failed attempts come before it, and no request and no back-off come after it. |
| `Fetching.AtMostRetries` | src/myanimelist_scraper/scraper.py:92 | At most `retries` requests are made, and exactly `retries` when all of them fail. |
| `Fetching.NoRetriesNoAttempt` | src/myanimelist_scraper/scraper.py:92-106 | With `retries <= 0` there is no request and no pause, and the result is `None`. |
| `Fetching.ThreeFailures` | src/myanimelist_scraper/scraper.py:88-102 | With the default 3 retries and a transport that always fails: 3 requests, back-offs of 1, 2 and 4, and `None`. |
| `Extraction.ExtractMediaList` | src/myanimelist_scraper/scraper.py:160-180 | The skip/break loop returns `Listing`: the entries of the matches from `start_idx` up to `end_idx`. |
| `Extraction.ListingWindow` | src/myanimelist_scraper/scraper.py:170-178 | The listing holds the `(stripped text, href)` of exactly the matches with index in `[start_idx, end_idx)` (both directions), in document order. |
| `Extraction.ListingToEnd` | src/myanimelist_scraper/scraper.py:173 | With `end_idx = None`, every match from `start_idx` on is kept. |
| `Extraction.ListingWithinSlice` | src/myanimelist_scraper/scraper.py:170-175 | A slice `[lo, hi)` yields at most `hi - lo` entries. |
| `Extraction.FewMatchesNoEntries` | src/myanimelist_scraper/scraper.py:170-172 | A page with at most `start_idx` matches yields no entries, and no error. |
| `Extraction.CollectStats` | src/myanimelist_scraper/scraper.py:133-158 | The block loop, which updates `stats` in place, returns `StatsOf(blocks)`. |
| `Extraction.ExtractStats` | src/myanimelist_scraper/scraper.py:126-158 | `extract_stats` returns `{}` when the fetch gives `None` or an empty body. Otherwise it returns the stats of the page's blocks. Its trace is that of `fetch_page`. |
| `Extraction.AssignedKeys` | src/myanimelist_scraper/scraper.py:135-155 | After the first `n` assignments, a key is in the dict exactly when one of them sets it (both directions). |
| `Extraction.AssignedLast` | src/myanimelist_scraper/scraper.py:155 | A key holds the value of the last assignment that sets it. |
| `Extraction.SetsHasKey` | src/myanimelist_scraper/scraper.py:136-155 | The loop's pass over block `i` sets `key` exactly when the block is labelled with `key`, and then it assigns the block's coerced value. |
| `Extraction.StatsKeys` | src/myanimelist_scraper/scraper.py:135-155 | A key is in `stats` exactly when some block carries a label with that key (both directions). Unlabelled blocks add nothing. |
| `Extraction.LastBlockWins` | src/myanimelist_scraper/scraper.py:155 | A key holds the value of the last block labelled with it. |
| `Extraction.StatKeyNormal` | src/myanimelist_scraper/scraper.py:140 | A key has no ASCII capital, does not end in `:`, and does not start with whitespace. |
| `Extraction.StatKeyOfKey` | src/myanimelist_scraper/scraper.py:140 | A label that is already stripped, colon-free at its end and lowercase is its own key. |
| `Extraction.CoerceThousands` | src/myanimelist_scraper/scraper.py:151-153 | A `members` text of `"1,234"` becomes the integer `1234`. |
| `Extraction.CoerceNumber` | src/myanimelist_scraper/scraper.py:151-153 | For `episodes`, `members` and `favorites`, a text whose comma-free form is the decimal text of `n` becomes the integer `n`. |
| `Extraction.CoerceKeeps` | src/myanimelist_scraper/scraper.py:151-153 | A value that does not parse, a list, or a value under any other key is kept unchanged, with no error. |
| `Extraction.SingleBlock` | src/myanimelist_scraper/scraper.py:144-155 | One labelled block under a non-numeric key gives exactly one entry, holding the block's raw value: a list for several anchors, a string for one, and the sibling text for none. |
| `PageFiles.PageUrlLimit` | src/myanimelist_scraper/scraper.py:80-83 | The `limit` query value of `get_page_url(p)` is `str((p - 1) * n)`, and `int` of it is `(p - 1) * n`. |
| `PageFiles.PageUrlFileName` | src/myanimelist_scraper/scraper.py:113-122 | `save_file` names listing page `p` `<type>_stats_<(p - 1) * n>.html`. |
| `PageFiles.ConfiguredBasePlain` | src/myanimelist_scraper/scraper.py:60-63 | Both configured listing URLs contain no `?`, no `#` and no `"stats"`. |
| `PageFiles.ConfiguredPageFileName` | src/myanimelist_scraper/scraper.py:80-83 | `save_file` names the scraper's own listing page `p` `<type>_stats_<(p - 1) * 50>.html`, for both media types. |
| `PageFiles.StatsUrlFileName` | src/myanimelist_scraper/scraper.py:117-119 | A URL containing `stats` is named `<type>_stats_<second-to-last "/" segment>.html`. |
| `PageFiles.StatsUrlWithoutSlash` | src/myanimelist_scraper/scraper.py:118 | A URL that contains `stats` but no `/` makes `split("/")[-2]` raise `IndexError`. |
| `PageFiles.MissingLimitFileName` | src/myanimelist_scraper/scraper.py:115-122 | A non-stats URL without a `limit` value is named `<type>_stats_0.html`. |
| `PageFiles.NoStorageNoFile` | src/myanimelist_scraper/scraper.py:110-111 | Without a storage the result is `None`. |
| `PageFiles.NoStatsInPageUrl` | src/myanimelist_scraper/scraper.py:117 | A page URL never contains `stats` unless its base URL does, since the offset text has no `s`. |
| `PageFiles.QueryOfAppended` | src/myanimelist_scraper/scraper.py:113-114 | The query of `base?q` is `q`. |
| `PageFiles.LimitPairValue` | src/myanimelist_scraper/scraper.py:114-115 | `parse_qs("limit=d")["limit"][0]` is `d`. |
| `PageFiles.QueryOfPrefix` | src/myanimelist_scraper/scraper.py:113-114 | A prefix without `?` or `#` does not change the query. |
| `PageFiles.DropFragmentPrefix` | src/myanimelist_scraper/scraper.py:113-114 | Dropping the fragment of `pre + x`, where `pre` has no `#`, drops the fragment of `x`. |
| `PageFiles.AfterMarkPrefix` | src/myanimelist_scraper/scraper.py:113-114 | The text after the first `?` ignores a prefix that has no `?`. |
| `PageFiles.SchemeStepQuery` | src/myanimelist_scraper/scraper.py:113-114 | Cutting off the scheme does not change the query. |
| `PageFiles.NetlocStepQuery` | src/myanimelist_scraper/scraper.py:113-114 | Cutting off the network location does not change the query. |
| `PageFiles.TailQuery` | src/myanimelist_scraper/scraper.py:113-114 | The query step of `urlsplit` reads the query `QueryOf` reads. |
| `PageFiles.QueryOfSplit` | src/myanimelist_scraper/scraper.py:113-114 | The query `save_file` reads is the query component of `urlsplit`. |
| `Uri.NetlocEnd` | src/myanimelist_scraper/models.py:18 | The network location ends at the first `/`, `?` or `#`, or at the end of the text. |
| `Uri.NonEmpty` | src/myanimelist_scraper/models.py:18 | `filter(None, segs)` keeps only non-empty segments, each taken from the input. |
| `Uri.Segments` | src/myanimelist_scraper/models.py:18 | The walked segments end in `stats`. |
| `Uri.ResolveDotFree` | src/myanimelist_scraper/models.py:18 | Without `.` or `..` segments, the walk keeps every segment, in order. |
| `Uri.NonEmptyKeeps` | src/myanimelist_scraper/models.py:18 | `filter(None, …)` leaves a list with no empty strings unchanged. |
| `Uri.NonEmptyDropsLast` | src/myanimelist_scraper/models.py:18 | `filter(None, …)` drops a trailing empty string. |
| `Uri.SegmentsOfClean` | src/myanimelist_scraper/models.py:18 | For a clean base directory, the walked segments are its own segments followed by `stats`. |
| `Uri.ResolvedOfDotFree` | src/myanimelist_scraper/models.py:18 | Dot-free segments followed by `stats` join to `dir/stats`. |
| `Uri.MergedPath` | src/myanimelist_scraper/models.py:18 | Section 5.2.3 of RFC 3986: for a clean base path, the result is the base path up to and including its last `/`, then `stats`. |
| `Uri.EmptyPathGivesRoot` | src/myanimelist_scraper/models.py:18 | Section 5.2.3 of RFC 3986: an empty base path gives `/stats`. |
| `Uri.SplitFirstAfter` | src/myanimelist_scraper/models.py:18 | `split(c, 1)` of `a + c + b`, where `a` has no `c`, is `(a, b)`. |
| `Uri.NetlocEndAppend` | src/myanimelist_scraper/models.py:18 | The network location is read up to the `/`, `?` or `#` that follows it. |
| `Uri.LowerScheme` | src/myanimelist_scraper/models.py:18 | A lowercased scheme is still a scheme, and is already lowercase. |
| `Uri.SchemeOfUnsplit` | src/myanimelist_scraper/models.py:18 | `urlsplit` reads back the scheme that `urlunsplit` wrote, or no scheme when none was written. |
| `Uri.SchemeCut` | src/myanimelist_scraper/models.py:18 | The text `scheme:rest` has its scheme cut off. |
| `Uri.NoSchemeCut` | src/myanimelist_scraper/models.py:18 | A text that starts with `/` has no scheme. |
| `Uri.NetlocOfUnsplit` | src/myanimelist_scraper/models.py:18 | `//netloc` followed by a path, query or fragment gives back `netloc`. |
| `Uri.TailOfUnsplit` | src/myanimelist_scraper/models.py:18 | The path, query and fragment that `urlunsplit` wrote are read back. |
| `Uri.QueryCut` | src/myanimelist_scraper/models.py:18 | A path followed by an optional `?query` splits at its first `?`. |
| `Uri.FragmentCut` | src/myanimelist_scraper/models.py:18 | A text followed by an optional `#fragment` splits at its first `#`. |
| `Uri.UnsplitSplit` | src/myanimelist_scraper/models.py:18 | `urlsplit(urlunsplit(p))` is `p`, with a `/` put in front of a path that lacked one. |
| `Uri.SchemeOfSplit` | src/myanimelist_scraper/models.py:18 | The scheme that `urlsplit` returns is either absent or a lowercase scheme. |
| `Uri.NetlocOfSplit` | src/myanimelist_scraper/models.py:18 | The network location that `urlsplit` returns has no `/`, `?` or `#`. |
| `Uri.TailOfSplit` | src/myanimelist_scraper/models.py:18 | The path that `urlsplit` returns has no `?` or `#`, and its query has no `#`. |
| `Uri.ParamsFreePrefix` | src/myanimelist_scraper/models.py:18 | Cutting `;params` keeps a prefix of the path. |
| `Uri.ResolveDotsFree` | src/myanimelist_scraper/models.py:18 | The walk adds no character that its segments lack. |
| `Uri.SegmentsFree` | src/myanimelist_scraper/models.py:18 | The walked segments hold no `?` or `#` unless the base path does. |
| `Uri.JoinSegmentsFree` | src/myanimelist_scraper/models.py:18 | The joined result holds no character, other than `/`, that its segments lack. |
| `Uri.ResolvedPathFree` | src/myanimelist_scraper/models.py:18 | The resolved path holds no `?` or `#` unless the base path does. |
| `Uri.JoinStatsParts` | src/myanimelist_scraper/models.py:16-18 | Section 5.2.2 of RFC 3986: `stats_url` keeps the base's scheme and network location, has the resolved path, and drops the query and the fragment. |
| `Models.UnsplitAbsolute` | src/myanimelist_scraper/models.py:18 | `urlunsplit` writes a scheme, a network location and a rooted path as `scheme://netloc/path`. |
| `Models.CleanDirSnoc` | src/myanimelist_scraper/models.py:18 | A clean directory followed by a plain segment is still clean. |
| `Models.ItemPathFree` | src/myanimelist_scraper/models.py:18 | An item path has no `?` or `#`. |
| `Models.ItemPathParamsFree` | src/myanimelist_scraper/models.py:18 | Cutting `;params` leaves an item path unchanged. |
| `Models.ItemUrlSplit` | src/myanimelist_scraper/models.py:18 | `urlsplit` of an item page gives back its scheme, network location and path. |
| `Models.ItemResolvedPath` | src/myanimelist_scraper/models.py:18 | Resolving against `<dir>/<id>/<slug>` gives the path `<dir>/<id>/stats`. |
| `Models.ItemStatsUrl` | src/myanimelist_scraper/models.py:16-18 | The `stats_url` of `scheme://netloc<dir>/<id>/<slug>` is `scheme://netloc<dir>/<id>/stats`. |
| `Models.ItemStatsFileName` | src/myanimelist_scraper/scraper.py:117-119 | The stats page of an item is saved as `<type>_stats_<id>.html`: the `media_id` that `save_file` reads is the item's id. |
| `Models.StatsPageFileName` | src/myanimelist_scraper/scraper.py:117-119 | A URL ending in `/<id>/stats` is named `<type>_stats_<id>.html`. |
| `Scraping.Dicts` | src/myanimelist_scraper/scraper.py:239 | `all_items` has one dict per record. |
| `Scraping.DictsAt` | src/myanimelist_scraper/scraper.py:232-239 | The `k`-th dict of `all_items` is the `item_data` of the `k`-th record. |
| `Scraping.StatsOutcomeAt` | src/myanimelist_scraper/scraper.py:224-230 | The stats of a title are read from its `stats_url`. |
| `Scraping.ItemsUpToNext` | src/myanimelist_scraper/scraper.py:223-244 | Each pass of the inner loop adds one title's step to what came before. |
| `Scraping.PagesUpToNext` | src/myanimelist_scraper/scraper.py:204-244 | Each pass of the outer loop adds one page's step to what came before. |
| `Scraping.FetchStats` | src/myanimelist_scraper/scraper.py:230 | `extract_stats(stats_url)` gives what the site answers for that URL. |
| `Scraping.RecordItem` | src/myanimelist_scraper/scraper.py:231-244 | Once the stats are read, a record is appended with rank `start + len(all_items)` only if the stats are not empty. The callback follows it, and the pause comes in every case. |
| `Scraping.ScrapeItem` | src/myanimelist_scraper/scraper.py:230-244 | One pass of the inner loop, for a title whose stats are at `stats_url`, is that title's step. |
| `Scraping.ScrapeTitle` | src/myanimelist_scraper/scraper.py:223-244 | One pass of the inner loop for title `i` is that title's step. Its `current_item` is `before + i + 1`, and its `stats_url` is computed from its own URL. |
| `Scraping.ScrapeItems` | src/myanimelist_scraper/scraper.py:223-244 | The inner loop over a page's titles equals `ItemsUpTo` over all of them. |
| `Scraping.ScrapeContent` | src/myanimelist_scraper/scraper.py:206-244 | A page that gave no content adds only its fetch. Otherwise the page is fetched, saved when `save_html` is set, then its slice of titles is processed. `current_item` counts from `(page - start_page) * 50`. |
| `Scraping.ScrapePage` | src/myanimelist_scraper/scraper.py:204-244 | One pass of the outer loop, for the `k`-th page of the run, is that page's step. |
| `Scraping.ScrapeNextPage` | src/myanimelist_scraper/scraper.py:204-244 | After `k + 1` passes, the outer loop is at `PagesUpTo(k + 1)`. |
| `Scraping.ScrapePages` | src/myanimelist_scraper/scraper.py:198-246 | The outer loop over `start_page .. end_page` returns the dicts and effects of `ScrapeRun`, for any stats-URL rule. |
| `Scraping.ScrapeRange` | src/myanimelist_scraper/scraper.py:182-246 | `scrape_range` returns the dicts and effects of `ScrapeRun`, with each stats URL computed by `urljoin(url, "stats")`. |
| `RangeFacts.ItemStepRows` | src/myanimelist_scraper/scraper.py:231-239 | A title's record is appended exactly when its stats are not empty. It gets the next rank, and the earlier records stay. |
| `RangeFacts.ItemStepRanked` | src/myanimelist_scraper/scraper.py:236 | A title's step keeps the ranks `start, start + 1, …` with no gap. |
| `RangeFacts.ItemStepEffects` | src/myanimelist_scraper/scraper.py:230-244 | The callback is called exactly when the record is appended and a callback is given. No listing page is fetched. |
| `RangeFacts.EmptyStatsSkipped` | src/myanimelist_scraper/scraper.py:231 | A title with empty stats is not appended and does not trigger the callback. |
| `RangeFacts.ItemsUpToRows` | src/myanimelist_scraper/scraper.py:223-239 | The inner loop keeps the earlier records and adds at most one per title, ranked with no gap. |
| `RangeFacts.ItemsUpToReported` | src/myanimelist_scraper/scraper.py:223-242 | The inner loop calls the callback once per record it adds. |
| `RangeFacts.ItemsUpToVisited` | src/myanimelist_scraper/scraper.py:223-244 | The inner loop fetches no listing page. |
| `RangeFacts.OpenedEffects` | src/myanimelist_scraper/scraper.py:206-213 | Fetching and saving a page adds one visited page and no callback. |
| `RangeFacts.PageStepRows` | src/myanimelist_scraper/scraper.py:204-239 | A page keeps the earlier records and adds at most one per title in its slice, ranked with no gap. |
| `RangeFacts.PageStepReported` | src/myanimelist_scraper/scraper.py:204-242 | A page calls the callback once per record it adds. |
| `RangeFacts.PageStepVisited` | src/myanimelist_scraper/scraper.py:204-210 | A page is fetched exactly once, whatever the fetch gave. |
| `RangeFacts.FailedPageSkipped` | src/myanimelist_scraper/scraper.py:208-210 | A page whose fetch gave nothing adds no record and no callback. Only its fetch is recorded. |
| `RangeFacts.PagesRows` | src/myanimelist_scraper/scraper.py:204-239 | The outer loop keeps the records ranked, with at most one per title in range. |
| `RangeFacts.PagesReported` | src/myanimelist_scraper/scraper.py:204-242 | The outer loop calls the callback once per record. |
| `RangeFacts.PagesUpToReported` | src/myanimelist_scraper/scraper.py:204-242 | Each pass of the outer loop keeps one callback per record. |
| `RangeFacts.PagesVisited` | src/myanimelist_scraper/scraper.py:204-210 | The first `count` passes fetch pages `first .. first + count - 1`, in order. |
| `RangeFacts.PagesUpToVisited` | src/myanimelist_scraper/scraper.py:204-210 | Pass `count` fetches page `first + count - 1`. |
| `RangeFacts.PageRange` | src/myanimelist_scraper/scraper.py:204 | `range(first, first + count)` holds `count` consecutive page numbers. |
| `RangeFacts.RanksCompact` | src/myanimelist_scraper/scraper.py:232-239 | The `k`-th record has rank `start + k` and non-empty stats, whatever was skipped. Its dict is its `item_data`, and the dict's `rank` is `start + k` unless the stats carry their own `rank`. |
| `RangeFacts.OneCallbackPerRecord` | src/myanimelist_scraper/scraper.py:241-242 | The progress callback is called exactly once per appended record, and never without a callback. |
| `RangeFacts.EveryPageVisited` | src/myanimelist_scraper/scraper.py:204-210 | Every page from `start_page` to `end_page` is fetched once, in order, including the pages after a failed one. |
| `RangeFacts.PageTitlesBound` | src/myanimelist_scraper/scraper.py:216-220 | A listing page gives no more titles than its slice. |
| `RangeFacts.RunTitlesBound` | src/myanimelist_scraper/scraper.py:216-220 | Every page of the run gives no more titles than its slice. |
| `RangeFacts.TitleCountBound` | src/myanimelist_scraper/scraper.py:216-223 | Pages that each give no more titles than their slice give, in total, no more than their slices select. |
| `RangeFacts.AtMostTotal` | src/myanimelist_scraper/scraper.py:198-246 | A valid range yields at most `total_items` records. |
| `RangeFacts.StatsOverride` | src/myanimelist_scraper/scraper.py:232-238 | A record's dict has the four base keys and the stats keys. A stats key overrides the base key of the same name, and a base key keeps its own value otherwise. |
| `Records.KeptAppend` | src/myanimelist_scraper/scraper.py:231 | The titles kept from two runs of titles, one after the other, are those kept from each, in order. |
| `Records.KeptLinked` | src/myanimelist_scraper/scraper.py:231 | Every kept title has non-empty stats, and the kept titles keep the link to their stats URL. |
| `Records.ItemStepRecords` | src/myanimelist_scraper/scraper.py:230-239 | A title appends its own record exactly when its stats are not empty: its name, URL, stats URL and stats, at the next rank. |
| `Records.ItemStepFetches` | src/myanimelist_scraper/scraper.py:224-230 | A title fetches its own stats page once, whatever that page gives. |
| `Records.ItemsUpToRecords` | src/myanimelist_scraper/scraper.py:223-239 | After `j` titles, the records are those of the titles kept before, then those kept among the first `j`, in order, ranked on with no gap. |
| `Records.ItemsUpToFetches` | src/myanimelist_scraper/scraper.py:223-230 | After `j` titles, the stats pages fetched are those fetched before, then those of the first `j` titles, in order. |
| `Records.PageStepRecords` | src/myanimelist_scraper/scraper.py:204-239 | A fetched page adds the records of its kept titles, in order. A page whose fetch gave nothing adds none. |
| `Records.PageStepFetches` | src/myanimelist_scraper/scraper.py:204-230 | A fetched page fetches the stats pages of its titles, in order. A page whose fetch gave nothing fetches none. |
| `Records.PagesUpToRecords` | src/myanimelist_scraper/scraper.py:204-239 | After `count` pages, the records are those of the kept titles of the fetched pages among them, in order, ranked from `start`. |
| `Records.PagesUpToFetches` | src/myanimelist_scraper/scraper.py:204-230 | After `count` pages, the stats pages fetched are those of every title of the fetched pages among them, in order. |
| `Records.PageTitles` | src/myanimelist_scraper/scraper.py:216-230 | A fetched page's titles are its anchors in the slice, in document order, each with the stats read from its own stats URL. |
| `Records.RunTitlesLinked` | src/myanimelist_scraper/scraper.py:223-230 | Every title of a run was read from `urljoin(url, "stats")` of its own URL. |
| `Records.RunRecords` | src/myanimelist_scraper/scraper.py:198-246 | The `k`-th record is the `k`-th title with non-empty stats, taken over the fetched pages in order, with its own name, URL, stats URL and stats, and rank `start + k`. There are no other records. |
| `Records.RunStatsFetches` | src/myanimelist_scraper/scraper.py:204-230 | The stats pages fetched are, in order, those of every title in range of every fetched page, each once, and no other. |

## Left out

- HTTP, sessions and headers (scraper.py:65-78, 96-97) are left out. Each URL
  has a table of attempt outcomes instead, and a URL is answered the same way
  every time it is asked. The `timeout` argument is not modelled.
- The HTML parser and CSS selectors (scraper.py:132-141, 167-170) are left
  out. A listing page is its matched anchors, and a stats page is its
  `spaceit_pad` blocks, both as tables keyed by the page's text.
- `Extraction.WellFormed`: the `Blocks` type excludes a labelled block that has
  no anchors and no text node after its label. On such a block,
  `label.next_sibling.strip()` fails (scraper.py:149), and that failure is not
  modelled.
- `Extraction.Anchor`: every matched title anchor is taken to carry an
  `href`. On an anchor without one, `item["href"]` raises `KeyError`
  (scraper.py:176), and that failure is not modelled.
- `PageFiles.SaveFileName`: `urlparse` (scraper.py:113) runs before the
  `"stats"` test. It raises `ValueError` for a malformed IPv6 network location,
  such as the one in `https://[x/anime?limit=0`, and for a network location that
  NFKC normalisation changes into one holding `/`, `?`, `#`, `@` or `:`. The
  model gives a file name in both cases instead. The query is read without the
  removal of leading C0 control characters and spaces, or of tab, CR and LF
  anywhere in the URL, that `urlsplit` performs first.
- `Scraping.ItemData` and `Extraction.Assigned` are maps, so the key order of
  the source's dicts is not modelled. In the source, the base keys come first,
  then the stats keys in label order, and a base key that `**stats` overrides
  keeps its place. Nothing in the modelled code depends on that order.
- `time.sleep` is recorded as a `Sleep` or `Pause` event and is not
  performed. The float `rate_limit` (scraper.py:54) is a whole number of
  abstract time units.
- `Decimal.ParseInt`: `int()` (scraper.py:153) is modelled only for an
  optional sign followed by ASCII digits. Python also accepts surrounding
  whitespace, `_` between digits and non-ASCII digits; those texts are
  treated as failures here.
- `Text.Lower` lowercases only ASCII letters. Every other character is kept,
  so Unicode case mapping is not modelled (scraper.py:140, utils.py:8).
  `name_formatter` therefore treats every non-ASCII character as a separator.
- `Text.IsSpace` gives the whitespace that `str.strip()` removes. It is
  written out as a fixed character set, not read from a Unicode database.
- `PageFiles.QueryValue`: `parse_qs` percent-decoding and `+` to space are
  not modelled. The `limit` values here are plain digits.
- `Uri.UrlSplit` models none of the following parts of `urlsplit`:
  - the removal of leading C0 control characters and spaces (trailing ones
    are kept, as in `urlsplit`);
  - the removal of tab, CR and LF anywhere in the URL. For the base
    `https://x/a<TAB>b/c`, CPython's `urljoin(base, "stats")` gives
    `https://x/ab/stats`, while `Uri.JoinStats` keeps the tab;
  - its `ValueError` for a malformed IPv6 network location;
  - its `ValueError` for a network location that NFKC normalisation changes
    into one holding `/`, `?`, `#`, `@` or `:`.
- `Uri.UrlUnsplit` follows the CPython version that writes `//` for a scheme
  of `uses_netloc` with an empty network location. Versions that differ there
  are not modelled.
- `Uri.JoinStatsParts` is stated only for a base with a scheme `urljoin`
  resolves against and a non-empty network location. `Uri.JoinStats` itself
  covers every base.
- `Scraping.ScrapePages` and the lemmas of `RangeFacts` hold for any rule
  that maps a title URL to its stats URL. `Scraping.ScrapeRange` uses
  `urljoin(url, "stats")`, which is `Uri.JoinStats`.
- The `Saved` effect records the URL that `save_file` receives. The name it
  saves under is `PageFiles.SaveFileName` of that URL. `Storage.save_html`
  and the file write (storage.py) are left out.
- `datetime.now` becomes the `date` parameter of `Utils.NameFormatter`.
  `Media.last_scraped`, `scraped` and the mutating `update_last_scraped`
  (models.py:12-13, 20-23) are left out.
- `print` output (scraper.py) is left out.
- The crashes would come from the mismatched names and arities at
  scraper.py:213, 220 and 230, and from the `myanimelist_scrapper.storage`
  import at scraper.py:12. They are not modelled; the intended calls are
  modelled instead.
- A persistence or merge step is not modelled: `save_csv` and `read_html`
  are called in `src/myanimelist_scraper/scrap.py`, but `Storage`
  (storage.py) defines only `save_html`.
- The driver scripts (`scrap.py`, `try_scrap.py`, `src/myanimelist_scraper/scrap.py`)
  and the earlier `myanimelist_scrapper` variant are not part of this model.
