/**
 * `Media` (src/myanimelist_scraper/models.py): a title with the URL of its
 * page, and `stats_url`, the `urljoin` of `stats` against that URL.
 */
module Models {
  import opened Text
  import opened Uri
  import opened Config
  import opened PageFiles

  /** A media entry; `last_scraped` and `scraped` are not modelled. */
  datatype Media = Media(name: string, url: string)

  /** `Media.stats_url`. */
  function StatsUrl(m: Media): string {
    JoinStats(m.url)
  }

  /** `scheme://netloc` followed by a path. */
  function Absolute(scheme: string, netloc: string, path: string): string {
    scheme + ":" + "//" + netloc + path
  }

  /** `urlunsplit` writes a scheme, a network location and a path starting with `/` as `scheme://netloc/path`. */
  lemma {:induction false} UnsplitAbsolute(scheme: string, netloc: string, path: string)
    requires scheme in UsesRelative && scheme != "" && netloc != ""
    requires path == [] || path[0] == '/'
    ensures UrlUnsplit(Parts(scheme, netloc, path, "", "")) == Absolute(scheme, netloc, path)
  {
    assert Rooted(path) == path;
    assert QueryFragment("", "") == "";
    assert "//" + netloc + path + "" == "//" + netloc + path;
  }

  /** The page of an item, `scheme://netloc<dir>/<id>/<slug>`, as the listing links to it. */
  predicate ItemUrl(scheme: string, netloc: string, dir: string, id: string, slug: string) {
    && IsScheme(scheme) && Lower(scheme) == scheme && scheme in UsesRelative
    && netloc != "" && (forall k :: 0 <= k < |netloc| ==> !EndsNetloc(netloc[k]))
    && (dir == [] || dir[0] == '/') && CleanDir(dir)
    && id != "" && id != "." && id != ".."
    && '/' !in id && '/' !in slug && ';' !in slug
    && '?' !in dir + id + slug && '#' !in dir + id + slug
  }

  /** A clean directory followed by a plain segment is still clean. */
  lemma {:induction false} CleanDirSnoc(dir: string, id: string)
    requires CleanDir(dir) && id != "" && id != "." && id != ".." && '/' !in id
    ensures CleanDir(dir + "/" + id)
  {
    SplitSnoc(dir, '/', id);
  }

  /** No `?` or `#` in the item's path. */
  lemma {:induction false} ItemPathFree(dir: string, id: string, slug: string, c: char)
    requires c !in dir + id + slug && c != '/'
    ensures c !in dir + "/" + id + "/" + slug
  {
    var path := dir + "/" + id + "/" + slug;
    forall k | 0 <= k < |path| ensures path[k] != c {
      if k < |dir| {
        assert path[k] == (dir + id + slug)[k];
      } else if |dir| < k < |dir| + 1 + |id| {
        assert path[k] == (dir + id + slug)[k - 1];
      } else if |dir| + 1 + |id| < k {
        assert path[k] == (dir + id + slug)[k - 2];
      }
    }
  }

  /** The `;params` cut leaves the item's path alone: its last segment has no `;`. */
  lemma {:induction false} ItemPathParamsFree(scheme: string, dir: string, id: string, slug: string)
    requires '/' !in slug && ';' !in slug
    ensures ParamsFree(scheme, dir + "/" + id + "/" + slug) == dir + "/" + id + "/" + slug
  {
    var path := dir + "/" + id + "/" + slug;
    var head := dir + "/" + id;
    assert path == head + ['/'] + slug;
    LastIndexOfSnoc(head, '/', slug);
    assert path[|head|] == '/';
    assert path[|head|..] == ['/'] + slug;
    assert ';' !in ['/'] + slug;
  }

  /** `urlsplit` of an item page gives back its scheme, network location and path. */
  lemma {:induction false} ItemUrlSplit(scheme: string, netloc: string, dir: string, id: string, slug: string)
    requires ItemUrl(scheme, netloc, dir, id, slug)
    ensures UrlSplit(Absolute(scheme, netloc, dir + "/" + id + "/" + slug))
            == Parts(scheme, netloc, dir + "/" + id + "/" + slug, "", "")
  {
    var path := dir + "/" + id + "/" + slug;
    assert path[0] == '/' by {
      if dir != [] {
        assert path[0] == dir[0];
      }
    }
    var p := Parts(scheme, netloc, path, "", "");
    UnsplitAbsolute(scheme, netloc, path);
    ItemPathFree(dir, id, slug, '?');
    ItemPathFree(dir, id, slug, '#');
    assert Splittable(p);
    UnsplitSplit(p);
  }

  /** The item's path resolves to its directory, its id and `stats`. */
  lemma {:induction false} ItemResolvedPath(scheme: string, dir: string, id: string, slug: string)
    requires CleanDir(dir) && id != "" && id != "." && id != ".."
    requires '/' !in id && '/' !in slug && ';' !in slug
    ensures ResolvedPath(ParamsFree(scheme, dir + "/" + id + "/" + slug)) == dir + "/" + id + "/" + "stats"
  {
    var path := dir + "/" + id + "/" + slug;
    var head := dir + "/" + id;
    assert path == head + ['/'] + slug;
    ItemPathParamsFree(scheme, dir, id, slug);
    LastIndexOfSnoc(head, '/', slug);
    assert path[..|head|] == head;
    CleanDirSnoc(dir, id);
    MergedPath(path);
    assert path[..|head| + 1] == head + "/";
  }

  /**
   * `stats_url` of an item page `.../<id>/<slug>` is `.../<id>/stats`: the
   * slug is replaced, scheme, network location and directory are kept.
   */
  lemma {:induction false} ItemStatsUrl(scheme: string, netloc: string, dir: string, id: string, slug: string)
    requires ItemUrl(scheme, netloc, dir, id, slug)
    ensures StatsUrl(Media("", Absolute(scheme, netloc, dir + "/" + id + "/" + slug)))
            == Absolute(scheme, netloc, dir + "/" + id + "/" + "stats")
  {
    var url := Absolute(scheme, netloc, dir + "/" + id + "/" + slug);
    var r := dir + "/" + id + "/" + "stats";
    ItemUrlSplit(scheme, netloc, dir, id, slug);
    ItemResolvedPath(scheme, dir, id, slug);
    assert |url| > 0;
    assert r[0] == '/' by {
      if dir != [] {
        assert r[0] == dir[0];
      }
    }
    UnsplitAbsolute(scheme, netloc, r);
  }

  /**
   * The stats page of an item is saved as `<type>_stats_<id>.html`: the
   * second-to-last segment of `stats_url` is the item's id.
   */
  lemma {:induction false} ItemStatsFileName(t: MediaType, scheme: string, netloc: string, dir: string, id: string, slug: string)
    requires ItemUrl(scheme, netloc, dir, id, slug)
    ensures SaveFileName(true, t, StatsUrl(Media("", Absolute(scheme, netloc, dir + "/" + id + "/" + slug))))
            == FileName(TypeValue(t) + "_stats_" + id + ".html")
  {
    ItemStatsUrl(scheme, netloc, dir, id, slug);
    StatsPageFileName(t, scheme, netloc, dir, id);
  }

  /** A URL ending in `/<id>/stats` is saved as `<type>_stats_<id>.html`. */
  lemma {:induction false} StatsPageFileName(t: MediaType, scheme: string, netloc: string, dir: string, id: string)
    requires '/' !in id
    ensures SaveFileName(true, t, Absolute(scheme, netloc, dir + "/" + id + "/" + "stats"))
            == FileName(TypeValue(t) + "_stats_" + id + ".html")
  {
    var x := scheme + ":" + "//" + netloc;
    var front := x + dir;
    var url := front + "/" + id + "/" + "stats";
    assert Absolute(scheme, netloc, dir + "/" + id + "/" + "stats") == url by {
      assert x + (dir + "/" + id + "/" + "stats") == url;
    }
    ContainsSuffix(front + "/" + id + "/", "stats");
    assert '/' !in "stats";
    SplitSnoc(front + "/" + id, '/', "stats");
    SplitSnoc(front, '/', id);
    var parts := Split(url, '/');
    assert parts == Split(front, '/') + [id] + ["stats"];
    assert parts[|parts| - 2] == id;
    assert url[|front|] == '/';
    StatsUrlFileName(t, url);
  }
}
