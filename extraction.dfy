/**
 * `extract_media_liist` and `extract_stats` (src/myanimelist_scraper/scraper.py).
 *
 * The HTML parser is not modelled: a listing page is given as the
 * document-ordered sequence of anchors matching `a[class*='fs14 fw-b']`, and a
 * stats page as the document-ordered sequence of `div[class*='spaceit_pad']`
 * blocks, each reduced to what the code reads from it.
 */
module Extraction {
  import opened Wrappers
  import opened Text
  import opened Decimal
  import opened Fetching

  /** A matched title anchor: its text and its `href` attribute. */
  datatype Anchor = Anchor(text: string, href: string)

  /** A listing entry, the `(name, url)` pair of the source. */
  datatype Entry = Entry(name: string, url: string)

  function EntryOf(a: Anchor): Entry {
    Entry(Strip(a.text), a.href)
  }

  /** Index `i` is kept by the loop: not skipped (`i < start_idx`) and not past the break (`i >= end_idx`). */
  predicate InWindow(i: int, startIdx: int, endIdx: Option<int>) {
    startIdx <= i && (endIdx.None? || i < endIdx.value)
  }

  function Clamp(x: int, lo: int, hi: int): int {
    if x < lo then lo else if x > hi then hi else x
  }

  /** The first kept index of `n` matches. */
  function WindowStart(n: nat, startIdx: int): nat {
    Clamp(startIdx, 0, n)
  }

  /** One past the last kept index of `n` matches. */
  function WindowEnd(n: nat, startIdx: int, endIdx: Option<int>): nat {
    match endIdx
    case None => n
    case Some(e) => Clamp(e, WindowStart(n, startIdx), n)
  }

  /** The entry of every anchor, in order. */
  function Entries(anchors: seq<Anchor>): seq<Entry> {
    seq(|anchors|, k requires 0 <= k < |anchors| => EntryOf(anchors[k]))
  }

  /** One more anchor adds its entry at the end. */
  lemma {:induction false} EntriesSnoc(anchors: seq<Anchor>, a: Anchor)
    ensures Entries(anchors + [a]) == Entries(anchors) + [EntryOf(a)]
  {
    var l, r := Entries(anchors + [a]), Entries(anchors) + [EntryOf(a)];
    assert |l| == |r|;
    forall k | 0 <= k < |l| ensures l[k] == r[k] {
      if k < |anchors| {
        assert (anchors + [a])[k] == anchors[k];
      } else {
        assert (anchors + [a])[k] == a;
      }
    }
  }

  /** The entries of the matches with index in `[start_idx, end_idx)`, in document order. */
  function Listing(matches: seq<Anchor>, startIdx: int, endIdx: Option<int>): seq<Entry> {
    Entries(matches[WindowStart(|matches|, startIdx)..WindowEnd(|matches|, startIdx, endIdx)])
  }

  /** `extract_media_liist` over the matched anchors of one listing page. */
  method ExtractMediaList(matches: seq<Anchor>, startIdx: int, endIdx: Option<int>)
    returns (items: seq<Entry>)
    ensures items == Listing(matches, startIdx, endIdx)
  {
    ghost var lo, hi := WindowStart(|matches|, startIdx), WindowEnd(|matches|, startIdx, endIdx);
    items := [];
    var i := 0;
    while i < |matches|
      invariant 0 <= i <= |matches|
      invariant items == Entries(matches[lo..if i < lo then lo else if i > hi then hi else i])
    {
      if i < startIdx {
        i := i + 1;
        continue;
      }
      if endIdx.Some? && i >= endIdx.value {
        break;
      }
      assert matches[lo..i + 1] == matches[lo..i] + [matches[i]];
      EntriesSnoc(matches[lo..i], matches[i]);
      items := items + [EntryOf(matches[i])];
      i := i + 1;
    }
  }

  /** The listing holds exactly the matches whose index the loop keeps, as one block of consecutive indices. */
  lemma {:induction false} ListingWindow(matches: seq<Anchor>, startIdx: int, endIdx: Option<int>)
    ensures var lo, items := WindowStart(|matches|, startIdx), Listing(matches, startIdx, endIdx);
            && (forall k :: 0 <= k < |items| ==> items[k] == EntryOf(matches[lo + k]))
            && (forall i :: 0 <= i < |matches| ==> (InWindow(i, startIdx, endIdx) <==> lo <= i < lo + |items|))
  {
    var lo, hi := WindowStart(|matches|, startIdx), WindowEnd(|matches|, startIdx, endIdx);
    forall k | 0 <= k < hi - lo ensures Listing(matches, startIdx, endIdx)[k] == EntryOf(matches[lo + k]) {
      assert matches[lo..hi][k] == matches[lo + k];
    }
  }

  /** With no `end_idx` every match from `start_idx` on is kept. */
  lemma {:induction false} ListingToEnd(matches: seq<Anchor>, startIdx: int)
    requires 0 <= startIdx <= |matches|
    ensures |Listing(matches, startIdx, None)| == |matches| - startIdx
    ensures forall k :: 0 <= k < |matches| - startIdx ==>
              Listing(matches, startIdx, None)[k] == EntryOf(matches[startIdx + k])
  {
    ListingWindow(matches, startIdx, None);
  }

  /** A window `[lo, hi)` keeps at most `hi - lo` entries. */
  lemma {:induction false} ListingWithinSlice(matches: seq<Anchor>, lo: int, hi: int)
    requires 0 <= lo <= hi
    ensures |Listing(matches, lo, Some(hi))| <= hi - lo
  {
  }

  /** A page with no more than `start_idx` matches yields nothing, and raises nothing. */
  lemma {:induction false} FewMatchesNoEntries(matches: seq<Anchor>, startIdx: int, endIdx: Option<int>)
    requires |matches| <= startIdx
    ensures Listing(matches, startIdx, endIdx) == []
  {
  }

  // ---- extract_stats ----

  /**
   * One `spaceit_pad` block: the text of its `span.dark_text` label (if it
   * has one), the texts of all its anchors in document order, and the text
   * node right after the label (`None` when that sibling is a tag or absent).
   */
  datatype StatBlock = StatBlock(labelText: Option<string>, anchors: seq<string>, sibling: Option<string>)

  /** A field value: a string, a list of strings, or an int after coercion. */
  datatype Value = StrValue(s: string) | ListValue(items: seq<string>) | IntValue(n: int)

  /**
   * A labelled block without anchors must be followed by a text node:
   * otherwise `label.next_sibling.strip()` raises, which is not modelled.
   */
  predicate WellFormed(b: StatBlock) {
    b.labelText.Some? && b.anchors == [] ==> b.sibling.Some?
  }

  predicate AllWellFormed(blocks: seq<StatBlock>) {
    forall i :: 0 <= i < |blocks| ==> WellFormed(blocks[i])
  }

  /** What the parser can make of a stats page: only well-formed blocks. */
  type Blocks = blocks: seq<StatBlock> | AllWellFormed(blocks) witness []

  /** The blocks the parser finds on the stats page `html`; a page not in the table has none. */
  function BlocksOf(parsed: map<string, Blocks>, html: string): Blocks {
    if html in parsed then parsed[html] else []
  }

  /** `label.text.strip().rstrip(":").lower()`. */
  function StatKey(text: string): string {
    Lower(TrimEnd(Strip(text), Chars(":")))
  }

  /** The value before coercion: several anchors give a list, one a string, none the sibling text. */
  function RawValue(b: StatBlock): Value
    requires b.labelText.Some? && WellFormed(b)
  {
    if |b.anchors| > 1 then ListValue(seq(|b.anchors|, i requires 0 <= i < |b.anchors| => Strip(b.anchors[i])))
    else if |b.anchors| == 1 then StrValue(Strip(b.anchors[0]))
    else StrValue(Strip(b.sibling.value))
  }

  /** The keys whose values are coerced to `int`. */
  predicate IsNumericKey(key: string) {
    key == "episodes" || key == "members" || key == "favorites"
  }

  /**
   * `int(str(value).replace(",", ""))` under `suppress(ValueError, TypeError)`.
   * A list never converts: its `str` starts with `[`.
   */
  function Coerce(key: string, v: Value): Value {
    if IsNumericKey(key) && v.StrValue? then
      match ParseInt(Remove(v.s, ','))
      case Some(n) => IntValue(n)
      case None => v
    else v
  }

  function BlockValue(b: StatBlock): Value
    requires b.labelText.Some? && WellFormed(b)
  {
    Coerce(StatKey(b.labelText.value), RawValue(b))
  }

  /** The block carries a label whose key is `key`. */
  predicate HasKey(b: StatBlock, key: string) {
    b.labelText.Some? && StatKey(b.labelText.value) == key
  }

  /** What one pass of the block loop assigns: nothing for an unlabelled block, else its key and value. */
  type Step = Option<(string, Value)>

  function Assign(b: StatBlock): Step
    requires WellFormed(b)
  {
    if b.labelText.None? then None else Some((StatKey(b.labelText.value), BlockValue(b)))
  }

  /** The assignment of each block, in document order. */
  function Assignments(blocks: seq<StatBlock>): (steps: seq<Step>)
    requires AllWellFormed(blocks)
    ensures |steps| == |blocks|
  {
    seq(|blocks|, i requires 0 <= i < |blocks| => Assign(blocks[i]))
  }

  /** The dict after the first `n` assignments, each overwriting any earlier value of its key. */
  function Assigned(steps: seq<Step>, n: nat): map<string, Value>
    requires n <= |steps|
  {
    if n == 0 then map[]
    else
      var s := steps[n - 1];
      if s.None? then Assigned(steps, n - 1) else Assigned(steps, n - 1)[s.value.0 := s.value.1]
  }

  predicate Sets(s: Step, key: string) {
    s.Some? && s.value.0 == key
  }

  /** A key is assigned exactly when some step sets it. */
  lemma {:induction false} AssignedKeys(steps: seq<Step>, n: nat, key: string)
    requires n <= |steps|
    ensures key in Assigned(steps, n) <==> exists i :: 0 <= i < n && Sets(steps[i], key)
  {
    if n > 0 {
      AssignedKeys(steps, n - 1, key);
      if Sets(steps[n - 1], key) {
        assert 0 <= n - 1 < n && Sets(steps[n - 1], key);
      } else if exists i :: 0 <= i < n && Sets(steps[i], key) {
        var i :| 0 <= i < n && Sets(steps[i], key);
        assert i < n - 1;
      }
    }
  }

  /** A key holds the value of the last step that sets it. */
  lemma {:induction false} AssignedLast(steps: seq<Step>, n: nat, i: nat, key: string)
    requires n <= |steps| && i < n && Sets(steps[i], key)
    requires forall j :: i < j < n ==> !Sets(steps[j], key)
    ensures key in Assigned(steps, n) && Assigned(steps, n)[key] == steps[i].value.1
  {
    if i < n - 1 {
      AssignedLast(steps, n - 1, i, key);
    }
  }

  /** The `stats` dict after the block loop has run over the first `n` blocks. */
  function StatsUpTo(blocks: seq<StatBlock>, n: nat): map<string, Value>
    requires n <= |blocks| && AllWellFormed(blocks)
  {
    Assigned(Assignments(blocks), n)
  }

  /** Step `i` sets `key` exactly when block `i` is labelled with it, and then assigns the block's value. */
  lemma {:induction false} SetsHasKey(blocks: seq<StatBlock>, i: nat, key: string)
    requires AllWellFormed(blocks) && i < |blocks|
    ensures Sets(Assignments(blocks)[i], key) <==> HasKey(blocks[i], key)
    ensures HasKey(blocks[i], key) ==> Assignments(blocks)[i].value.1 == BlockValue(blocks[i])
  {
    assert Assignments(blocks)[i] == Assign(blocks[i]);
  }

  function StatsOf(blocks: seq<StatBlock>): map<string, Value>
    requires AllWellFormed(blocks)
  {
    StatsUpTo(blocks, |blocks|)
  }

  /** The block loop of `extract_stats`, filling `stats` in place. */
  method CollectStats(blocks: seq<StatBlock>) returns (stats: map<string, Value>)
    requires AllWellFormed(blocks)
    ensures stats == StatsOf(blocks)
  {
    stats := map[];
    var i := 0;
    while i < |blocks|
      invariant 0 <= i <= |blocks|
      invariant stats == StatsUpTo(blocks, i)
    {
      var b := blocks[i];
      assert Assignments(blocks)[i] == Assign(b);
      if b.labelText.Some? {
        var key := StatKey(b.labelText.value);
        stats := stats[key := BlockValue(b)];
      }
      i := i + 1;
    }
  }

  /** `extract_stats(url)`: fetch with the default retries, then the block loop; `{}` when nothing came back. */
  method ExtractStats(answers: seq<Attempt>, rateLimit: nat, parsed: map<string, Blocks>)
    returns (stats: map<string, Value>, trace: seq<Event>)
    ensures trace == FetchFrom(answers, DefaultRetries, rateLimit, 0).1
    ensures var content := FetchFrom(answers, DefaultRetries, rateLimit, 0).0;
            stats == if content.None? || content.value == "" then map[] else StatsOf(BlocksOf(parsed, content.value))
  {
    var content;
    content, trace := FetchPage(answers, DefaultRetries, rateLimit);
    if content.None? || content.value == "" {
      return map[], trace;
    }
    stats := CollectStats(BlocksOf(parsed, content.value));
  }

  /** A key is present exactly when some block is labelled with it; unlabelled blocks add nothing. */
  lemma {:induction false} StatsKeys(blocks: seq<StatBlock>, n: nat, key: string)
    requires n <= |blocks| && AllWellFormed(blocks)
    ensures key in StatsUpTo(blocks, n) <==> exists i :: 0 <= i < n && HasKey(blocks[i], key)
  {
    var steps := Assignments(blocks);
    AssignedKeys(steps, n, key);
    forall i | 0 <= i < n ensures Sets(steps[i], key) <==> HasKey(blocks[i], key) {
      SetsHasKey(blocks, i, key);
    }
  }

  /** Later blocks overwrite earlier ones: a key holds the value of the last block labelled with it. */
  lemma {:induction false} LastBlockWins(blocks: seq<StatBlock>, n: nat, i: nat, key: string)
    requires n <= |blocks| && AllWellFormed(blocks)
    requires i < n && HasKey(blocks[i], key)
    requires forall j :: i < j < n ==> !HasKey(blocks[j], key)
    ensures key in StatsUpTo(blocks, n) && StatsUpTo(blocks, n)[key] == BlockValue(blocks[i])
  {
    var steps := Assignments(blocks);
    SetsHasKey(blocks, i, key);
    forall j | i < j < n ensures !Sets(steps[j], key) {
      SetsHasKey(blocks, j, key);
    }
    AssignedLast(steps, n, i, key);
  }

  /** The key has no ASCII capital and no trailing colon, and a key in that form is its own key. */
  lemma {:induction false} StatKeyNormal(text: string)
    ensures forall i :: 0 <= i < |StatKey(text)| ==> !IsUpper(StatKey(text)[i])
    ensures StatKey(text) == [] || StatKey(text)[|StatKey(text)| - 1] != ':'
    ensures StatKey(text) == [] || !IsSpace(StatKey(text)[0])
  {
    var t := TrimEnd(Strip(text), Chars(":"));
    StripSpec(text);
    TrimEndSpec(Strip(text), Chars(":"));
    LowerIdempotent(t);
    LowerAt(t);
    if t != [] {
      assert t[0] == Strip(text)[0];
    }
  }

  /** A label already trimmed, colon-free at its end and in lower case is its own key. */
  lemma {:induction false} StatKeyOfKey(key: string)
    requires key == [] || (!IsSpace(key[0]) && !IsSpace(key[|key| - 1]) && key[|key| - 1] != ':')
    requires forall i :: 0 <= i < |key| ==> !IsUpper(key[i])
    ensures StatKey(key) == key
  {
    assert TrimStart(key, Whitespace) == key;
    assert TrimEnd(key, Whitespace) == key;
    assert TrimEnd(key, Chars(":")) == key;
    LowerAt(key);
    assert Lower(key) == key;
  }

  /** A numeric field whose text is an integer, thousands separators allowed, becomes that integer. */
  lemma {:induction false} CoerceNumber(key: string, s: string, n: int)
    requires IsNumericKey(key) && Remove(s, ',') == IntToString(n)
    ensures Coerce(key, StrValue(s)) == IntValue(n)
  {
    ParseIntToString(n);
  }

  /** Dropping the thousands separator of "1,234" leaves "1234". */
  lemma {:induction false} RemoveThousands()
    ensures Remove("1,234", ',') == "1234"
  {
    RemoveSeparator("1", "234", ',');
    assert "1" + [','] + "234" == "1,234";
    assert "1" + "234" == "1234";
  }

  /** The decimal text of 1234. */
  lemma {:induction false} Text1234()
    ensures IntToString(1234) == "1234"
  {
    assert NatToString(1234) == NatToString(123) + ['4'];
    assert NatToString(123) == NatToString(12) + ['3'];
    assert NatToString(12) == NatToString(1) + ['2'];
  }

  /** The member count "1,234" of a stats page becomes the integer 1234. */
  lemma {:induction false} CoerceThousands()
    ensures Coerce("members", StrValue("1,234")) == IntValue(1234)
  {
    RemoveThousands();
    Text1234();
    CoerceNumber("members", "1,234", 1234);
  }

  /** Coercion never fails: a value that does not parse, a list, or any other key is kept as it is. */
  lemma {:induction false} CoerceKeeps(key: string, v: Value)
    requires !IsNumericKey(key) || !v.StrValue? || ParseInt(Remove(v.s, ',')).None?
    ensures Coerce(key, v) == v
  {
  }

  /** A single labelled block under a non-numeric key yields exactly that key, holding its raw value. */
  lemma {:induction false} SingleBlock(b: StatBlock)
    requires WellFormed(b) && b.labelText.Some? && !IsNumericKey(StatKey(b.labelText.value))
    ensures StatsOf([b]) == map[StatKey(b.labelText.value) := RawValue(b)]
  {
    var steps := Assignments([b]);
    assert steps[0] == Assign(b);
    assert BlockValue(b) == RawValue(b);
    assert Assigned(steps, 0) == map[];
    assert Assigned(steps, 1) == map[][StatKey(b.labelText.value) := BlockValue(b)];
  }
}
