/**
 * `get_page_url` and the file name `save_file` chooses
 * (src/myanimelist_scraper/scraper.py).
 *
 * The query of a URL is read as `urllib.parse.urlparse(url).query`, and its
 * parameters as `parse_qs` reads them: pairs split on `&`, each split at its
 * first `=`, with pairs lacking `=` or with an empty value dropped.
 */
module PageFiles {
  import opened Wrappers
  import opened Text
  import opened Decimal
  import opened Config
  import opened Uri

  /** `get_page_url`: the listing URL whose `limit` is the offset of the page's first item. */
  function GetPageUrl(cfg: MediaConfig, page: int): string {
    cfg.baseUrl + "?limit=" + IntToString((page - 1) * cfg.itemsPerPage)
  }

  /** The URL without its fragment: what comes before the first `#`. */
  function DropFragment(url: string): string {
    if '#' in url then url[..IndexOf(url, '#')] else url
  }

  /** What follows the first `?`, or nothing without one. */
  function AfterMark(s: string): string {
    if '?' in s then s[IndexOf(s, '?') + 1..] else ""
  }

  /** The query component: what follows the first `?` that comes before any `#`. */
  function QueryOf(url: string): string {
    AfterMark(DropFragment(url))
  }

  /** The first non-empty value of `key` among `name=value` pairs. */
  function FirstValue(pairs: seq<string>, key: string): Option<string> {
    if pairs == [] then None
    else
      var pair := pairs[0];
      if '=' in pair && pair[..IndexOf(pair, '=')] == key && IndexOf(pair, '=') + 1 < |pair|
      then Some(pair[IndexOf(pair, '=') + 1..])
      else FirstValue(pairs[1..], key)
  }

  /** `parse_qs(query).get(key, [default])[0]`, with `None` for the missing key. */
  function QueryValue(query: string, key: string): Option<string> {
    FirstValue(if query == "" then [] else Split(query, '&'), key)
  }

  /** What `save_file` does with a URL: nothing, a file name, or the `IndexError` of `split("/")[-2]`. */
  datatype SaveName = NoStorage | FileName(name: string) | SplitIndexError

  /**
   * The file name `save_file` hands to the storage (the write itself is not modelled).
   * The source parses the URL and reads `limit` before it branches. For a URL that `urlparse`
   * accepts, that reading does not affect the name, so here `limit` is read only on the branch
   * that uses it. The `ValueError` of `urlparse` for a malformed IPv6 network location is not
   * modelled.
   */
  function SaveFileName(hasStorage: bool, t: MediaType, url: string): SaveName {
    if !hasStorage then NoStorage
    else if Contains(url, "stats") then
      var parts := Split(url, '/');
      if |parts| < 2 then SplitIndexError
      else FileName(TypeValue(t) + "_stats_" + parts[|parts| - 2] + ".html")
    else
      var limit := match QueryValue(QueryOf(url), "limit") case Some(v) => v case None => "0";
      FileName(TypeValue(t) + "_stats_" + (if limit == "" then "default" else limit) + ".html")
  }

  /** A URL base that `get_page_url` can extend without changing its query or its name. */
  predicate PlainBase(base: string) {
    '?' !in base && '#' !in base && !Contains(base, "stats")
  }

  /** No text made of digits and `-` adds an occurrence of "stats" after `base?limit=`. */
  lemma {:induction false} NoStatsInPageUrl(base: string, d: string)
    requires !Contains(base, "stats")
    requires forall k :: 0 <= k < |d| ==> d[k] != 's'
    ensures !Contains(base + "?limit=" + d, "stats")
  {
    var u := base + "?limit=" + d;
    forall i | 0 <= i <= |u| - 5
      ensures !OccursAt(u, "stats", i)
    {
      if i + 5 <= |base| {
        assert u[i..i + 5] == base[i..i + 5];
        assert !OccursAt(base, "stats", i);
      } else if i <= |base| {
        assert u[i..i + 5][|base| - i] == u[|base|] == '?';
      } else {
        assert u[i..i + 5][0] == u[i];
        if i < |base| + 7 {
          assert u[i] == "?limit="[i - |base|];
        } else {
          assert u[i] == d[i - |base| - 7];
        }
      }
    }
  }

  /** The query of `base?q` is `q` when neither part holds a `#` and `base` holds no `?`. */
  lemma {:induction false} QueryOfAppended(base: string, q: string)
    requires '?' !in base && '#' !in base && '#' !in q
    ensures QueryOf(base + "?" + q) == q
  {
    var u := base + "?" + q;
    assert u == base + ("?" + q);
    assert '#' !in u by {
      forall k | 0 <= k < |u| ensures u[k] != '#' {
        if k > |base| { assert u[k] == q[k - |base| - 1]; }
      }
    }
    IndexOfAfter(base, "?" + q, '?');
    assert u[|base| + 1..] == q;
  }

  /** A single `limit=d` pair with a non-empty `d` free of `&` yields `d`. */
  lemma {:induction false} LimitPairValue(d: string)
    requires d != [] && '&' !in d
    ensures QueryValue("limit=" + d, "limit") == Some(d)
  {
    var q := "limit=" + d;
    assert '&' !in q by {
      forall k | 0 <= k < |q| ensures q[k] != '&' {
        if k >= 6 { assert q[k] == d[k - 6]; }
      }
    }
    assert Split(q, '&') == [q];
    assert q == "limit" + ("=" + d);
    IndexOfAfter("limit", "=" + d, '=');
    assert q[..5] == "limit";
    assert q[6..] == d;
  }

  /** The page URL's `limit` parameter is the decimal text of the page offset. */
  lemma {:induction false} PageUrlLimit(cfg: MediaConfig, page: int)
    requires '?' !in cfg.baseUrl && '#' !in cfg.baseUrl
    ensures QueryValue(QueryOf(GetPageUrl(cfg, page)), "limit")
            == Some(IntToString((page - 1) * cfg.itemsPerPage))
    ensures ParseInt(QueryValue(QueryOf(GetPageUrl(cfg, page)), "limit").value)
            == Some((page - 1) * cfg.itemsPerPage)
  {
    var d := IntToString((page - 1) * cfg.itemsPerPage);
    IntToStringShape((page - 1) * cfg.itemsPerPage);
    var q := "limit=" + d;
    assert '#' !in q by {
      forall k | 0 <= k < |q| ensures q[k] != '#' {
        if k >= 6 { assert q[k] == d[k - 6]; }
      }
    }
    assert GetPageUrl(cfg, page) == cfg.baseUrl + "?" + q;
    QueryOfAppended(cfg.baseUrl, q);
    LimitPairValue(d);
    ParseIntToString((page - 1) * cfg.itemsPerPage);
  }

  /** `save_file` names listing page `p` `<type>_stats_<(p - 1) * n>.html`. */
  lemma {:induction false} PageUrlFileName(cfg: MediaConfig, t: MediaType, page: int)
    requires PlainBase(cfg.baseUrl)
    ensures SaveFileName(true, t, GetPageUrl(cfg, page))
            == FileName(TypeValue(t) + "_stats_" + IntToString((page - 1) * cfg.itemsPerPage) + ".html")
  {
    var d := IntToString((page - 1) * cfg.itemsPerPage);
    PageUrlLimit(cfg, page);
    IntToStringShape((page - 1) * cfg.itemsPerPage);
    NoStatsInPageUrl(cfg.baseUrl, d);
    assert GetPageUrl(cfg, page) == cfg.baseUrl + "?limit=" + d;
    assert QueryValue(QueryOf(GetPageUrl(cfg, page)), "limit") == Some(d) && d != "";
  }

  /** "stats" is absent from a text whose every `s`, at `k` or `m`, is not followed by "ta". */
  lemma {:induction false} NoStatsBetween(s: string, k: int, m: int)
    requires forall i :: 0 <= i < |s| && s[i] == 's' ==> i == k || i == m
    requires 0 <= k && k + 2 < |s| && (s[k + 1] != 't' || s[k + 2] != 'a')
    requires 0 <= m && m + 2 < |s| && (s[m + 1] != 't' || s[m + 2] != 'a')
    ensures !Contains(s, "stats")
  {
    forall i | 0 <= i <= |s| - 5
      ensures !OccursAt(s, "stats", i)
    {
      var w := s[i..i + 5];
      assert w[0] == s[i] && w[1] == s[i + 1] && w[2] == s[i + 2];
    }
  }

  /** Neither configured listing URL holds `?` or `#`. */
  lemma {:induction false} ConfiguredBaseMarks(t: MediaType)
    ensures forall i :: 0 <= i < |Configs(t).baseUrl| ==> Configs(t).baseUrl[i] != '?' && Configs(t).baseUrl[i] != '#'
  {
  }

  /** In both configured listing URLs the only `s` are those of "https" and "myanimelist". */
  lemma {:induction false} ConfiguredBaseEsses(t: MediaType)
    ensures forall i :: 0 <= i < |Configs(t).baseUrl| && Configs(t).baseUrl[i] == 's' ==> i == 4 || i == 17
  {
  }

  /** Both configured listing URLs are plain bases. */
  lemma {:induction false} ConfiguredBasePlain(t: MediaType)
    ensures PlainBase(Configs(t).baseUrl)
  {
    ConfiguredBaseMarks(t);
    ConfiguredBaseEsses(t);
    NoStatsBetween(Configs(t).baseUrl, 4, 17);
  }

  /** `save_file` names the scraper's own listing page `p` `<type>_stats_<(p - 1) * 50>.html`. */
  lemma {:induction false} ConfiguredPageFileName(t: MediaType, page: int)
    ensures SaveFileName(true, t, GetPageUrl(Configs(t), page))
            == FileName(TypeValue(t) + "_stats_" + IntToString((page - 1) * 50) + ".html")
  {
    ConfiguredBasePlain(t);
    PageUrlFileName(Configs(t), t, page);
  }

  /** A URL mentioning "stats" is named after its second-to-last `/`-separated segment. */
  lemma {:induction false} StatsUrlFileName(t: MediaType, url: string)
    requires Contains(url, "stats") && '/' in url
    ensures SaveFileName(true, t, url)
            == FileName(TypeValue(t) + "_stats_" + Split(url, '/')[|Split(url, '/')| - 2] + ".html")
  {
    SplitAtSep(url, '/');
  }

  /** A URL mentioning "stats" but holding no `/` makes `split("/")[-2]` raise. */
  lemma {:induction false} StatsUrlWithoutSlash(t: MediaType, url: string)
    requires Contains(url, "stats") && '/' !in url
    ensures SaveFileName(true, t, url) == SplitIndexError
  {
  }

  /** Without a `limit` parameter the page is named `<type>_stats_0.html`. */
  lemma {:induction false} MissingLimitFileName(t: MediaType, url: string)
    requires !Contains(url, "stats") && QueryValue(QueryOf(url), "limit").None?
    ensures SaveFileName(true, t, url) == FileName(TypeValue(t) + "_stats_0.html")
  {
  }

  /** Without storage nothing is named or saved. */
  lemma {:induction false} NoStorageNoFile(t: MediaType, url: string)
    ensures SaveFileName(false, t, url) == NoStorage
  {
  }

  /** A prefix without `?` and `#` does not change the query. */
  lemma {:induction false} QueryOfPrefix(pre: string, x: string)
    requires '?' !in pre && '#' !in pre
    ensures QueryOf(pre + x) == QueryOf(x)
  {
    DropFragmentPrefix(pre, x);
    AfterMarkPrefix(pre, DropFragment(x));
  }

  lemma {:induction false} DropFragmentPrefix(pre: string, x: string)
    requires '#' !in pre
    ensures DropFragment(pre + x) == pre + DropFragment(x)
  {
    if '#' in x {
      IndexOfAfter(pre, x, '#');
      var i := IndexOf(x, '#');
      assert (pre + x)[..|pre| + i] == pre + x[..i];
    }
  }

  lemma {:induction false} AfterMarkPrefix(pre: string, b: string)
    requires '?' !in pre
    ensures AfterMark(pre + b) == AfterMark(b)
  {
    if '?' in b {
      IndexOfAfter(pre, b, '?');
      var i := IndexOf(b, '?');
      assert (pre + b)[|pre| + i + 1..] == b[i + 1..];
    }
  }

  /** Cutting the scheme does not change the query. */
  lemma {:induction false} SchemeStepQuery(url: string)
    ensures QueryOf(SplitScheme(url).1) == QueryOf(url)
  {
    if ':' in url {
      var i := IndexOf(url, ':');
      if i > 0 && IsScheme(url[..i]) {
        var pre := url[..i + 1];
        assert url == pre + url[i + 1..];
        forall k | 0 <= k < |pre| ensures pre[k] != '?' && pre[k] != '#' {
          if k < i {
            assert pre[k] == url[..i][k];
            assert IsSchemeChar(url[..i][k]);
          }
        }
        QueryOfPrefix(pre, url[i + 1..]);
      }
    }
  }

  /** Cutting the network location does not change the query. */
  lemma {:induction false} NetlocStepQuery(rest: string)
    ensures QueryOf(SplitNetloc(rest).1) == QueryOf(rest)
  {
    if |rest| >= 2 && rest[..2] == "//" {
      var e := NetlocEnd(rest[2..]);
      var pre := rest[..2 + e];
      assert rest == pre + rest[2..][e..];
      forall k | 0 <= k < |pre| ensures pre[k] != '?' && pre[k] != '#' {
        if k >= 2 {
          assert pre[k] == rest[2..][k - 2];
        }
      }
      QueryOfPrefix(pre, rest[2..][e..]);
    }
  }

  lemma {:induction false} TailQuery(rest: string)
    ensures SplitTail(rest).1 == QueryOf(rest)
  {
  }

  /** `QueryOf` is the query component of `urlsplit`: scheme and network location never hold `?` or `#`. */
  lemma {:induction false} QueryOfSplit(url: string)
    ensures UrlSplit(url).query == QueryOf(url)
  {
    var rest := SplitScheme(url).1;
    SchemeStepQuery(url);
    NetlocStepQuery(rest);
    TailQuery(SplitNetloc(rest).1);
  }
}
