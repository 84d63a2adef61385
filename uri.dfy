/**
 * `urllib.parse.urljoin(base, "stats")` as CPython computes it: `urlsplit`
 * (with the `;params` cut of `urlparse`) of the base, the path resolution of
 * `urljoin`, and `urlunsplit`. This is CPython's rendering of reference
 * resolution in section 5.2 of RFC 3986 for the one-segment relative
 * reference `stats`.
 */
module Uri {
  import opened Text

  /** The components `urlsplit` returns; an empty string stands for an absent one. */
  datatype Parts = Parts(scheme: string, netloc: string, path: string, query: string, fragment: string)

  predicate IsAsciiLetter(c: char) { 'a' <= c <= 'z' || 'A' <= c <= 'Z' }

  /** `urllib.parse.scheme_chars`. */
  predicate IsSchemeChar(c: char) {
    IsAsciiLetter(c) || '0' <= c <= '9' || c == '+' || c == '-' || c == '.'
  }

  /** What `urlsplit` accepts in front of the first `:` as a scheme. */
  predicate IsScheme(s: string) {
    |s| > 0 && IsAsciiLetter(s[0]) && forall i :: 0 <= i < |s| ==> IsSchemeChar(s[i])
  }

  /** `urllib.parse.uses_relative`: the schemes `urljoin` resolves against. All of them are in `uses_netloc`. */
  const UsesRelative: set<string> :=
    {"", "ftp", "http", "gopher", "nntp", "imap", "wais", "file", "https", "shttp", "mms",
     "prospero", "rtsp", "rtsps", "rtspu", "sftp", "svn", "svn+ssh", "ws", "wss"}

  /** `urllib.parse.uses_params`: the schemes whose last path segment may carry `;params`. */
  const UsesParams: set<string> :=
    {"", "ftp", "hdl", "prospero", "http", "imap", "https", "shttp", "rtsp", "rtsps", "rtspu",
     "sip", "sips", "mms", "sftp", "tel"}

  /** The scheme step of `urlsplit`: a scheme before the first `:` is cut off and lowercased. */
  function SplitScheme(url: string): (string, string) {
    if ':' !in url then ("", url)
    else
      var i := IndexOf(url, ':');
      if i > 0 && IsScheme(url[..i]) then (Lower(url[..i]), url[i + 1..]) else ("", url)
  }

  predicate EndsNetloc(c: char) { c == '/' || c == '?' || c == '#' }

  /** Where `_splitnetloc` ends the network location: the first `/`, `?` or `#`, or the end. */
  function NetlocEnd(s: string): (i: nat)
    ensures i <= |s|
    ensures forall j :: 0 <= j < i ==> !EndsNetloc(s[j])
    ensures i < |s| ==> EndsNetloc(s[i])
  {
    if s == [] || EndsNetloc(s[0]) then 0 else 1 + NetlocEnd(s[1..])
  }

  /** `s.split(c, 1)` read as a pair, with `""` as the second part when `c` does not occur. */
  function SplitFirst(s: string, c: char): (string, string) {
    if c in s then (s[..IndexOf(s, c)], s[IndexOf(s, c) + 1..]) else (s, "")
  }

  /** The network location step of `urlsplit`: after `//`, up to the first `/`, `?` or `#`. */
  function SplitNetloc(rest: string): (string, string) {
    if |rest| >= 2 && rest[..2] == "//" then
      var e := NetlocEnd(rest[2..]);
      (rest[2..][..e], rest[2..][e..])
    else ("", rest)
  }

  /** The last steps of `urlsplit`: the fragment after the first `#`, then the query after the first `?`. */
  function SplitTail(rest: string): (string, string, string) {
    var hash := SplitFirst(rest, '#');
    var question := SplitFirst(hash.0, '?');
    (question.0, question.1, hash.1)
  }

  /** `urlsplit(url)`: scheme, then `//` network location, then `#` fragment, then `?` query. */
  function UrlSplit(url: string): Parts {
    var scheme := SplitScheme(url);
    var netloc := SplitNetloc(scheme.1);
    var tail := SplitTail(netloc.1);
    Parts(scheme.0, netloc.0, tail.0, tail.1, tail.2)
  }

  /** The path `urlparse` keeps once `;params` are cut from its last segment (`_splitparams`). */
  function ParamsFree(scheme: string, path: string): string {
    if scheme !in UsesParams || ';' !in path then path
    else
      var j := if '/' in path then LastIndexOf(path, '/') else 0;
      if ';' in path[j..] then path[..j + IndexOf(path[j..], ';')] else path
  }

  /** The base path's segments with its last one dropped unless it is empty (the base "directory"). */
  function DirParts(path: string): seq<string> {
    var parts := Split(path, '/');
    if parts[|parts| - 1] != "" then parts[..|parts| - 1] else parts
  }

  /** `filter(None, segs)`. */
  function NonEmpty(segs: seq<string>): (r: seq<string>)
    ensures |r| <= |segs|
    ensures forall k :: 0 <= k < |r| ==> r[k] != "" && r[k] in segs
  {
    if segs == [] then []
    else (if segs[0] == "" then [] else [segs[0]]) + NonEmpty(segs[1..])
  }

  /** The segments `urljoin` walks: the base directory, then `stats`, empty inner segments dropped. */
  function Segments(path: string): (segs: seq<string>)
    ensures |segs| >= 1 && segs[|segs| - 1] == "stats"
  {
    var s := DirParts(path) + ["stats"];
    if |s| == 1 then s else [s[0]] + NonEmpty(s[1..|s| - 1]) + [s[|s| - 1]]
  }

  /** The walk over the segments: `..` pops (when there is something to pop), `.` is skipped. */
  function ResolveDots(stack: seq<string>, segs: seq<string>): seq<string>
    decreases |segs|
  {
    if segs == [] then stack
    else
      var seg := segs[0];
      var next :=
        if seg == ".." then (if stack == [] then [] else stack[..|stack| - 1])
        else if seg == "." then stack
        else stack + [seg];
      ResolveDots(next, segs[1..])
  }

  /** The path of `urljoin(base, "stats")` for a base path `path`. */
  function ResolvedPath(path: string): string {
    JoinSegments(Segments(path))
  }

  /** The walk over `segs`, joined with `/` (`"/"` when nothing is left). */
  function JoinSegments(segs: seq<string>): string
    requires |segs| >= 1
  {
    var last := segs[|segs| - 1];
    var resolved := ResolveDots([], segs) + (if last == "." || last == ".." then [""] else []);
    if resolved == [] then "/"
    else
      var joined := Join(resolved, '/');
      if joined == "" then "/" else joined
  }

  /** The path `urlunsplit` writes after a network location: a `/` is put in front when missing. */
  function Rooted(path: string): string {
    if path != "" && path[0] != '/' then "/" + path else path
  }

  /** The query and fragment as `urlunsplit` appends them: each only when it is non-empty. */
  function QueryFragment(query: string, fragment: string): string {
    (if query != "" then "?" + query else "") + (if fragment != "" then "#" + fragment else "")
  }

  /** `urlunsplit` for a scheme of `uses_netloc` (which every scheme of `uses_relative` is). */
  function UrlUnsplit(p: Parts): string
    requires p.scheme in UsesRelative
  {
    var doubleSlash := |p.path| >= 2 && p.path[..2] == "//";
    var hier := if p.netloc != "" || (p.scheme != "" && !doubleSlash) then "//" + p.netloc + Rooted(p.path) else p.path;
    (if p.scheme != "" then p.scheme + ":" else "") + (hier + QueryFragment(p.query, p.fragment))
  }

  /** `urljoin(base, "stats")`. */
  function JoinStats(base: string): string {
    if base == "" then "stats"
    else
      var b := UrlSplit(base);
      if b.scheme !in UsesRelative then "stats"
      else UrlUnsplit(Parts(b.scheme, b.netloc, ResolvedPath(ParamsFree(b.scheme, b.path)), "", ""))
  }

  /** No segment is `.` or `..`. */
  predicate DotFree(segs: seq<string>) {
    forall k :: 0 <= k < |segs| ==> segs[k] != "." && segs[k] != ".."
  }

  /** Without dot segments the walk keeps every segment, in order. */
  lemma {:induction false} ResolveDotFree(stack: seq<string>, segs: seq<string>)
    requires DotFree(segs)
    ensures ResolveDots(stack, segs) == stack + segs
    decreases |segs|
  {
    if segs != [] {
      ResolveDotFree(stack + [segs[0]], segs[1..]);
      assert stack + [segs[0]] + segs[1..] == stack + segs;
    } else {
      assert stack + segs == stack;
    }
  }

  /** `filter(None, …)` keeps a list without empty strings as it is. */
  lemma {:induction false} NonEmptyKeeps(segs: seq<string>)
    requires forall k :: 0 <= k < |segs| ==> segs[k] != ""
    ensures NonEmpty(segs) == segs
    decreases |segs|
  {
    if segs != [] {
      NonEmptyKeeps(segs[1..]);
      assert [segs[0]] + segs[1..] == segs;
    }
  }

  /** `filter(None, …)` drops a trailing empty string. */
  lemma {:induction false} NonEmptyDropsLast(segs: seq<string>)
    ensures NonEmpty(segs + [""]) == NonEmpty(segs)
    decreases |segs|
  {
    if segs == [] {
      assert NonEmpty([""]) == [] + NonEmpty([]);
    } else {
      assert (segs + [""])[1..] == segs[1..] + [""];
      NonEmptyDropsLast(segs[1..]);
    }
  }

  /**
   * A base "directory" that `urljoin` leaves as it is: its segments hold no
   * `.` or `..`, and none but the first is empty (a doubled `/` would be
   * collapsed).
   */
  predicate CleanDir(dir: string) {
    var ps := Split(dir, '/');
    DotFree(ps) && forall k :: 1 <= k < |ps| ==> ps[k] != ""
  }

  /** The segments walked for a clean base directory `dir` and any last segment `last`. */
  lemma {:induction false} SegmentsOfClean(dir: string, last: string)
    requires '/' !in last && CleanDir(dir)
    ensures Segments(dir + "/" + last) == Split(dir, '/') + ["stats"]
  {
    var path := dir + "/" + last;
    var ps := Split(dir, '/');
    SplitSnoc(dir, '/', last);
    var mid := if last != "" then ps[1..] else ps[1..] + [""];
    assert DirParts(path) == [ps[0]] + mid by {
      assert Split(path, '/') == ps + [last];
      if last != "" {
        assert (ps + [last])[..|ps|] == ps;
      }
    }
    SegmentsOfDirParts(path, ps[0], mid);
    NonEmptyKeeps(ps[1..]);
    if last == "" {
      NonEmptyDropsLast(ps[1..]);
    }
    assert [ps[0]] + ps[1..] == ps;
  }

  /** The segments walked for a base whose directory parts are `first` followed by `mid`. */
  lemma {:induction false} SegmentsOfDirParts(path: string, first: string, mid: seq<string>)
    requires DirParts(path) == [first] + mid
    ensures Segments(path) == [first] + NonEmpty(mid) + ["stats"]
  {
    var s := DirParts(path) + ["stats"];
    assert s[1..|s| - 1] == mid;
  }

  /** The path resolved from a walk that keeps `segs` and ends in `stats`. */
  lemma {:induction false} ResolvedOfDotFree(ps: seq<string>)
    requires |ps| >= 1 && DotFree(ps)
    ensures JoinSegments(ps + ["stats"]) == Join(ps, '/') + "/" + "stats"
  {
    var segs := ps + ["stats"];
    assert DotFree(segs) by {
      forall k | 0 <= k < |segs| ensures segs[k] != "." && segs[k] != ".." {
        if k < |ps| {
          assert segs[k] == ps[k];
        }
      }
    }
    ResolveDotFree([], segs);
    assert segs[|segs| - 1] == "stats";
    assert ResolveDots([], segs) + [] == segs;
    JoinSnoc(ps, '/', "stats");
    var joined := Join(segs, '/');
    assert joined == Join(ps, '/') + "/" + "stats";
    assert |joined| > 0;
    assert JoinSegments(segs) == joined;
  }

  /**
   * Section 5.2.3 of RFC 3986: the path of the result is the base path up to
   * and including its last `/`, followed by `stats`.
   */
  lemma {:induction false} MergedPath(path: string)
    requires '/' in path && CleanDir(path[..LastIndexOf(path, '/')])
    ensures ResolvedPath(path) == path[..LastIndexOf(path, '/') + 1] + "stats"
  {
    var j := LastIndexOf(path, '/');
    var dir, last := path[..j], path[j + 1..];
    assert path == dir + "/" + last;
    SegmentsOfClean(dir, last);
    var ps := Split(dir, '/');
    assert Segments(path) == ps + ["stats"];
    ResolvedOfDotFree(ps);
    SplitJoin(dir, '/');
    assert ResolvedPath(path) == JoinSegments(ps + ["stats"]) == dir + "/" + "stats";
    assert path[..j + 1] == dir + "/";
  }

  /** Section 5.2.3 of RFC 3986: an empty base path (a base with only an authority) gives `/stats`. */
  lemma {:induction false} EmptyPathGivesRoot()
    ensures ResolvedPath("") == "/stats"
  {
    assert Split("", '/') == [""];
    assert DirParts("") == [""];
    assert Segments("") == [""] + ["stats"];
    ResolvedOfDotFree([""]);
  }

  /** `split(c, 1)` of a string whose first `c` follows `a`. */
  lemma {:induction false} SplitFirstAfter(a: string, c: char, b: string)
    requires c !in a
    ensures SplitFirst(a + [c] + b, c) == (a, b)
  {
    var s := a + [c] + b;
    assert s == a + ([c] + b);
    assert ([c] + b)[0] == c;
    IndexOfAfter(a, [c] + b, c);
    assert IndexOf(s, c) == |a|;
    assert s[..|a|] == a;
    assert s[|a| + 1..] == b;
  }

  /** The network location ends where a `/`, `?` or `#` follows it, or at the end. */
  lemma {:induction false} NetlocEndAppend(netloc: string, tail: string)
    requires forall j :: 0 <= j < |netloc| ==> !EndsNetloc(netloc[j])
    requires tail == [] || EndsNetloc(tail[0])
    ensures NetlocEnd(netloc + tail) == |netloc|
    decreases |netloc|
  {
    if netloc == [] {
      assert netloc + tail == tail;
    } else {
      assert (netloc + tail)[1..] == netloc[1..] + tail;
      NetlocEndAppend(netloc[1..], tail);
    }
  }

  /** Lowercasing a scheme gives a scheme that is already lowercase. */
  lemma {:induction false} LowerScheme(s: string)
    requires IsScheme(s)
    ensures IsScheme(Lower(s)) && Lower(Lower(s)) == Lower(s)
  {
    LowerIdempotent(s);
    LowerAt(s);
  }

  /** Components that `urlunsplit` writes out so that `urlsplit` reads them back. */
  predicate Splittable(p: Parts) {
    && (p.scheme == "" || (IsScheme(p.scheme) && Lower(p.scheme) == p.scheme))
    && (p.scheme != "" || p.netloc != "")
    && (forall k :: 0 <= k < |p.netloc| ==> !EndsNetloc(p.netloc[k]))
    && '?' !in p.path && '#' !in p.path && '#' !in p.query
    && (p.netloc != "" || !(|p.path| >= 2 && p.path[..2] == "//"))
  }

  /** The scheme step finds the scheme again, or none when there is none. */
  lemma {:induction false} SchemeOfUnsplit(scheme: string, h: string)
    requires scheme == "" || (IsScheme(scheme) && Lower(scheme) == scheme)
    requires |h| > 0 && h[0] == '/'
    ensures SplitScheme((if scheme != "" then scheme + ":" else "") + h) == (scheme, h)
  {
    if scheme != "" {
      SchemeCut(scheme, h);
    } else {
      assert "" + h == h;
      NoSchemeCut(h);
    }
  }

  /** A scheme, a `:` and the rest: the scheme is cut off. */
  lemma {:induction false} SchemeCut(scheme: string, h: string)
    requires IsScheme(scheme) && Lower(scheme) == scheme
    ensures SplitScheme(scheme + ":" + h) == (scheme, h)
  {
    assert ':' !in scheme by {
      forall k | 0 <= k < |scheme| ensures scheme[k] != ':' {
        assert IsSchemeChar(scheme[k]);
      }
    }
    var u := scheme + ":" + h;
    IndexOfAfter(scheme, ":" + h, ':');
    assert u == scheme + (":" + h);
    assert u[..|scheme|] == scheme;
    assert u[|scheme| + 1..] == h;
  }

  /** A string that starts with `/` has no scheme. */
  lemma {:induction false} NoSchemeCut(h: string)
    requires |h| > 0 && h[0] == '/'
    ensures SplitScheme(h) == ("", h)
  {
    if ':' in h {
      var i := IndexOf(h, ':');
      assert h[..i][0] == '/';
    }
  }

  /** The network location is read back up to the path, query or fragment that follows it. */
  lemma {:induction false} NetlocOfUnsplit(netloc: string, tail: string)
    requires forall j :: 0 <= j < |netloc| ==> !EndsNetloc(netloc[j])
    requires tail == [] || EndsNetloc(tail[0])
    ensures SplitNetloc("//" + netloc + tail) == (netloc, tail)
  {
    var rest := "//" + netloc + tail;
    assert rest[..2] == "//" && rest[2..] == netloc + tail;
    NetlocEndAppend(netloc, tail);
    assert (netloc + tail)[..|netloc|] == netloc;
    assert (netloc + tail)[|netloc|..] == tail;
  }

  /** Path, query and fragment are read back when the path has no `?` or `#` and the query no `#`. */
  lemma {:induction false} TailOfUnsplit(path: string, query: string, fragment: string)
    requires '?' !in path && '#' !in path && '#' !in query
    ensures SplitTail(path + QueryFragment(query, fragment)) == (path, query, fragment)
  {
    var q := if query != "" then "?" + query else "";
    assert path + QueryFragment(query, fragment) == (path + q) + (if fragment != "" then "#" + fragment else "");
    QueryCut(path, query);
    FragmentCut(path + q, fragment);
  }

  /** `path` and an optional `?query`, split at the first `?`. */
  lemma {:induction false} QueryCut(path: string, query: string)
    requires '?' !in path && '#' !in path && '#' !in query
    ensures var q := if query != "" then "?" + query else "";
            '#' !in path + q && SplitFirst(path + q, '?') == (path, query)
  {
    if query != "" {
      SplitFirstAfter(path, '?', query);
      assert path + ("?" + query) == path + ['?'] + query;
      assert '#' !in "?" + query;
    } else {
      assert path + "" == path;
    }
  }

  /** A string without `#` and an optional `#fragment`, split at the first `#`. */
  lemma {:induction false} FragmentCut(s: string, fragment: string)
    requires '#' !in s
    ensures SplitFirst(s + (if fragment != "" then "#" + fragment else ""), '#') == (s, fragment)
  {
    if fragment != "" {
      SplitFirstAfter(s, '#', fragment);
      assert s + ("#" + fragment) == s + ['#'] + fragment;
    } else {
      assert s + "" == s;
    }
  }

  /** `urlsplit` reads back what `urlunsplit` wrote, with a `/` put in front of a path that lacked one. */
  lemma {:induction false} UnsplitSplit(p: Parts)
    requires p.scheme in UsesRelative && Splittable(p)
    ensures UrlSplit(UrlUnsplit(p)) == p.(path := Rooted(p.path))
  {
    var r := Rooted(p.path);
    var tail := r + QueryFragment(p.query, p.fragment);
    var h := "//" + p.netloc + tail;
    assert UrlUnsplit(p) == (if p.scheme != "" then p.scheme + ":" else "") + h;
    SchemeOfUnsplit(p.scheme, h);
    assert '#' !in r && '?' !in r;
    assert tail == [] || EndsNetloc(tail[0]) by {
      if r != "" {
        assert tail[0] == r[0];
      } else {
        assert tail == QueryFragment(p.query, p.fragment);
      }
    }
    NetlocOfUnsplit(p.netloc, tail);
    TailOfUnsplit(r, p.query, p.fragment);
  }

  /** The scheme `urlsplit` returns is absent, or a scheme in lower case. */
  lemma {:induction false} SchemeOfSplit(url: string)
    ensures var s := SplitScheme(url).0; s == "" || (IsScheme(s) && Lower(s) == s)
  {
    if ':' in url {
      var i := IndexOf(url, ':');
      if i > 0 && IsScheme(url[..i]) {
        LowerScheme(url[..i]);
      }
    }
  }

  /** The network location `urlsplit` returns has no `/`, `?` or `#`. */
  lemma {:induction false} NetlocOfSplit(rest: string)
    ensures var n := SplitNetloc(rest).0; forall k :: 0 <= k < |n| ==> !EndsNetloc(n[k])
  {
    if |rest| >= 2 && rest[..2] == "//" {
      var e := NetlocEnd(rest[2..]);
      forall k | 0 <= k < e ensures !EndsNetloc(rest[2..][..e][k]) {
        assert rest[2..][..e][k] == rest[2..][k];
      }
    }
  }

  /** The path `urlsplit` returns has no `?` or `#`, its query no `#`. */
  lemma {:induction false} TailOfSplit(rest: string)
    ensures var t := SplitTail(rest); '?' !in t.0 && '#' !in t.0 && '#' !in t.1
  {
    assert '#' !in SplitFirst(rest, '#').0;
  }

  /** Cutting `;params` keeps a prefix of the path. */
  lemma {:induction false} ParamsFreePrefix(scheme: string, path: string)
    ensures var r := ParamsFree(scheme, path); |r| <= |path| && r == path[..|r|]
  {
  }

  predicate AllFree(ss: seq<string>, c: char) {
    forall k :: 0 <= k < |ss| ==> c !in ss[k]
  }

  lemma {:induction false} ResolveDotsFree(stack: seq<string>, segs: seq<string>, c: char)
    requires AllFree(stack, c) && AllFree(segs, c)
    ensures AllFree(ResolveDots(stack, segs), c)
    decreases |segs|
  {
    if segs != [] {
      var seg := segs[0];
      var next :=
        if seg == ".." then (if stack == [] then [] else stack[..|stack| - 1])
        else if seg == "." then stack
        else stack + [seg];
      assert AllFree(next, c);
      ResolveDotsFree(next, segs[1..], c);
    }
  }

  lemma {:induction false} SegmentsFree(path: string, c: char)
    requires c == '?' || c == '#'
    requires c !in path
    ensures AllFree(Segments(path), c)
  {
    SplitFree(path, '/', c);
    var s := DirParts(path) + ["stats"];
    assert c !in "stats";
    assert AllFree(s, c);
    if |s| > 1 {
      var mid := s[1..|s| - 1];
      var inner := NonEmpty(mid);
      forall k | 0 <= k < |inner| ensures c !in inner[k] {
        var j :| 0 <= j < |mid| && mid[j] == inner[k];
        assert mid[j] == s[j + 1];
      }
      var segs := [s[0]] + inner + [s[|s| - 1]];
      forall k | 0 <= k < |segs| ensures c !in segs[k] {
        if 0 < k < |segs| - 1 {
          assert segs[k] == inner[k - 1];
        }
      }
      assert Segments(path) == segs;
    }
  }

  lemma {:induction false} JoinSegmentsFree(segs: seq<string>, c: char)
    requires |segs| >= 1 && c != '/' && AllFree(segs, c)
    ensures c !in JoinSegments(segs)
  {
    ResolveDotsFree([], segs, c);
    var last := segs[|segs| - 1];
    var resolved := ResolveDots([], segs) + (if last == "." || last == ".." then [""] else []);
    assert AllFree(resolved, c);
    if resolved != [] {
      JoinFree(resolved, '/', c);
    }
  }

  /** The resolved path holds no `?` or `#` unless the base path did. */
  lemma {:induction false} ResolvedPathFree(path: string, c: char)
    requires c == '?' || c == '#'
    requires c !in path
    ensures c !in ResolvedPath(path)
  {
    SegmentsFree(path, c);
    JoinSegmentsFree(Segments(path), c);
  }

  /**
   * Section 5.2.2 of RFC 3986: for a base with a network location and a
   * scheme `urljoin` resolves against, the result has the base's scheme and
   * network location, the resolved path, and neither query nor fragment.
   */
  lemma {:induction false} JoinStatsParts(base: string)
    requires base != ""
    requires UrlSplit(base).scheme in UsesRelative && UrlSplit(base).netloc != ""
    ensures var b := UrlSplit(base);
            UrlSplit(JoinStats(base)) == Parts(b.scheme, b.netloc, Rooted(ResolvedPath(ParamsFree(b.scheme, b.path))), "", "")
  {
    var b := UrlSplit(base);
    var rest := SplitScheme(base).1;
    SchemeOfSplit(base);
    NetlocOfSplit(rest);
    TailOfSplit(SplitNetloc(rest).1);
    var path := ParamsFree(b.scheme, b.path);
    ParamsFreePrefix(b.scheme, b.path);
    assert '?' !in path && '#' !in path by {
      forall k | 0 <= k < |path| ensures path[k] != '?' && path[k] != '#' {
        assert path[k] == b.path[k];
      }
    }
    var r := ResolvedPath(path);
    ResolvedPathFree(path, '?');
    ResolvedPathFree(path, '#');
    var p := Parts(b.scheme, b.netloc, r, "", "");
    assert Splittable(p);
    UnsplitSplit(p);
  }
}
